/** The payment endpoints, which finish a booking's lifecycle. Processing a payment is NOT
    one transaction: a fee correction is saved before the gateway is called and stays
    saved whatever happens afterwards. The caller's user id, which the real endpoint
    derives from the authenticated e-mail address, is a parameter; so are the gateway's
    random draw, the UUID it cuts a transaction id from, and the clock. */
module PaymentController {
  import opened Common
  import opened Entities
  import opened Repository
  import opened Stores
  import PaymentService

  /** The JSON body of a payment request. */
  datatype PaymentRequest = PaymentRequest(bookingId: Option<int>, amount: Option<real>, paymentMethod: Option<string>)

  /** Why a payment request was turned down. */
  datatype PaymentError =
    | RequestMissing
    | BookingIdRequired
    | BookingNotFound(bookingId: int)
    | OwnerMissing
    | NotOwner
    | AmountRequired
    | GatewayDeclined(message: string)
    | NoSlotAssigned
    | SlotNotFound(slotId: int)

  /** The HTTP status of a rejection: 403 for another user's booking, else 400. */
  function StatusCode(e: PaymentError): (code: int)
    ensures code == 403 <==> e.NotOwner?
    ensures code == 400 || code == 403
  {
    RejectionStatus(e.NotOwner?)
  }

  /** The success response's payload. */
  datatype PaymentReceipt = PaymentReceipt(
    transactionId: Option<string>,
    bookingId: Option<int>,
    slotId: Option<int>,
    amount: real,
    paymentMethod: Option<string>,
    message: string)

  /** The gap between the amount paid and the booking's fee, a missing fee counting as 0. */
  function FeeGap(b: BookingRecord, amount: real): real
  {
    var fee := if b.parkingFee.Some? then b.parkingFee.value else 0.0;
    if amount >= fee then amount - fee else fee - amount
  }

  /** The booking after the fee check: a gap above one currency unit replaces the fee by the amount. */
  function AdjustFee(b: BookingRecord, amount: real): BookingRecord
  {
    if FeeGap(b, amount) > 1.0 then b.(parkingFee := Some(amount)) else b
  }

  /** The booking as the checks before any write see it, or the rejection they produce. */
  function CheckedBooking(t: Tables, req: Option<PaymentRequest>, callerId: int): (r: Result<BookingRecord, PaymentError>)
    ensures r.Ok? ==> req.Some? && req.value.bookingId.Some? && req.value.amount.Some? &&
                      LookupBooking(t, req.value.bookingId) == Some(r.value) && r.value.userId == Some(callerId)
  {
    if req.None? then Err(RequestMissing)
    else if req.value.bookingId.None? then Err(BookingIdRequired)
    else
      match LookupBooking(t, req.value.bookingId)
      case None => Err(BookingNotFound(req.value.bookingId.value))
      case Some(b) =>
        if b.userId.None? then Err(OwnerMissing)
        else if b.userId.value != callerId then Err(NotOwner)
        else if req.value.amount.None? then Err(AmountRequired)
        else Ok(b)
  }

  /** `processPayment(request)` by user `callerId` at time `now`. */
  function ProcessPaymentSpec(t: Tables, req: Option<PaymentRequest>, callerId: int, draw: real, uuid: string, now: int)
    : (Result<PaymentReceipt, PaymentError>, Tables)
    requires PaymentService.IsUuidText(uuid)
  {
    match CheckedBooking(t, req, callerId)
    case Err(e) => (Err(e), t)
    case Ok(b) =>
      var amount := req.value.amount.value;
      var b1 := AdjustFee(b, amount);
      var t1 := if FeeGap(b, amount) > 1.0 then SaveBookingRow(t, b1).0 else t;
      SettleSpec(t1, b1, PaymentService.ProcessPayment(Some(amount), draw, uuid), amount, req.value.paymentMethod, now)
  }

  /** What follows the fee correction: the gateway's answer, then the release of the slot
      and the completion of the booking `b1`. */
  function SettleSpec(t1: Tables, b1: BookingRecord, gateway: PaymentService.PaymentResult, amount: real,
                      paymentMethod: Option<string>, now: int): (Result<PaymentReceipt, PaymentError>, Tables)
  {
    if !gateway.success then (Err(GatewayDeclined(gateway.message)), t1)
    else if b1.slotId.None? then (Err(NoSlotAssigned), t1)
    else
      match LookupSlot(t1, b1.slotId)
      case None => (Err(SlotNotFound(b1.slotId.value)), t1)
      case Some(s) =>
        var t2 := SaveSlotRow(t1, s.(available := true)).0;
        var b2 := b1.(status := Some(COMPLETED), paymentStatus := Some("PAID"), paymentTime := Some(now),
                      transactionId := gateway.transactionId);
        (Ok(PaymentReceipt(gateway.transactionId, b2.id, b2.slotId, amount, paymentMethod,
                           "Payment successful - Slot released")),
         SaveBookingRow(t2, b2).0)
  }

  method ProcessPayment(store: ParkingStore, req: Option<PaymentRequest>, callerId: int, draw: real, uuid: string, now: int)
    returns (r: Result<PaymentReceipt, PaymentError>)
    requires PaymentService.IsUuidText(uuid)
    requires store.Valid()
    modifies store
    ensures store.Valid()
    ensures (r, store.State()) == ProcessPaymentSpec(old(store.State()), req, callerId, draw, uuid, now)
  {
    if req.None? {
      return Err(RequestMissing);
    }
    var request := req.value;
    if request.bookingId.None? {
      return Err(BookingIdRequired);
    }
    var booking := store.FindBooking(request.bookingId);
    if booking == null {
      return Err(BookingNotFound(request.bookingId.value));
    }
    if booking.userId.None? {
      return Err(OwnerMissing);
    }
    if booking.userId.value != callerId {
      return Err(NotOwner);
    }
    if request.amount.None? {
      return Err(AmountRequired);
    }
    ghost var t := store.State();
    ghost var b := booking.Snapshot();
    assert CheckedBooking(t, req, callerId) == Ok(b);
    var amount := request.amount.value;
    var fee := if booking.parkingFee.Some? then booking.parkingFee.value else 0.0;
    var diff := if amount >= fee then amount - fee else fee - amount;
    if diff > 1.0 {
      booking.SetParkingFee(Some(amount));
      SaveBookingRowFound(store.State(), booking.Snapshot());
      store.SaveBooking(booking);
    }
    assert booking.Snapshot() == AdjustFee(b, amount);
    assert store.State() == (if FeeGap(b, amount) > 1.0 then SaveBookingRow(t, AdjustFee(b, amount)).0 else t);
    var gateway := PaymentService.ProcessPayment(Some(amount), draw, uuid);
    r := Settle(store, booking, gateway, amount, request.paymentMethod, now);
  }

  method Settle(store: ParkingStore, booking: Booking, gateway: PaymentService.PaymentResult, amount: real,
                paymentMethod: Option<string>, now: int)
    returns (r: Result<PaymentReceipt, PaymentError>)
    requires store.Valid()
    requires LookupBooking(store.State(), booking.Snapshot().id).Some?
    modifies store, booking
    ensures store.Valid()
    ensures (r, store.State()) == SettleSpec(old(store.State()), old(booking.Snapshot()), gateway, amount, paymentMethod, now)
  {
    if !gateway.success {
      return Err(GatewayDeclined(gateway.message));
    }
    if booking.slotId.None? {
      return Err(NoSlotAssigned);
    }
    ghost var t1 := store.State();
    ghost var b1 := booking.Snapshot();
    var slot := store.FindSlot(booking.slotId);
    if slot == null {
      return Err(SlotNotFound(booking.slotId.value));
    }
    ghost var s := slot.Snapshot();
    slot.SetAvailable(true);
    SaveSlotRowFound(store.State(), slot.Snapshot());
    store.SaveSlot(slot);
    ghost var t2 := store.State();
    assert t2 == SaveSlotRow(t1, s.(available := true)).0;
    assert LookupBooking(t2, b1.id) == LookupBooking(t1, b1.id);
    booking.SetStatus(Some(COMPLETED));
    booking.SetPaymentStatus(Some("PAID"));
    booking.SetPaymentTime(Some(now));
    booking.SetTransactionId(gateway.transactionId);
    ghost var b2 := b1.(status := Some(COMPLETED), paymentStatus := Some("PAID"), paymentTime := Some(now),
                        transactionId := gateway.transactionId);
    assert booking.Snapshot() == b2;
    SaveBookingRowFound(t2, b2);
    store.SaveBooking(booking);
    assert booking.Snapshot() == b2;
    r := Ok(PaymentReceipt(gateway.transactionId, booking.id, booking.slotId, amount, paymentMethod,
                           "Payment successful - Slot released"));
  }

  /** Nothing is written until the request names a booking of the caller and an amount:
      a missing body, booking id or amount, an unknown booking, a booking without an owner
      and another user's booking (the only 403) all leave the tables as they were. */
  lemma RejectedBeforeAnyWrite(t: Tables, req: Option<PaymentRequest>, callerId: int, draw: real, uuid: string, now: int)
    requires PaymentService.IsUuidText(uuid)
    ensures var (r, t') := ProcessPaymentSpec(t, req, callerId, draw, uuid, now);
      (req.None? || req.value.bookingId.None? || req.value.amount.None? ||
       LookupBooking(t, req.value.bookingId).None? ||
       LookupBooking(t, req.value.bookingId).value.userId != Some(callerId)) ==>
        r.Err? && t' == t &&
        (r.error == NotOwner <==>
           req.Some? && req.value.bookingId.Some? && LookupBooking(t, req.value.bookingId).Some? &&
           LookupBooking(t, req.value.bookingId).value.userId.Some? &&
           LookupBooking(t, req.value.bookingId).value.userId.value != callerId)
  {
  }

  /** Once the checks pass, the fee is replaced by the amount exactly when they differ by
      more than 1.0, and that correction is saved even when the gateway then declines,
      in which case neither the booking's status nor any slot changes. */
  lemma DeclinedPaymentKeepsFeeCorrection(t: Tables, req: Option<PaymentRequest>, callerId: int, draw: real, uuid: string, now: int)
    requires PaymentService.IsUuidText(uuid)
    requires ValidTables(t)
    requires CheckedBooking(t, req, callerId).Ok?
    requires !PaymentService.ProcessPayment(req.value.amount, draw, uuid).success
    ensures var b := CheckedBooking(t, req, callerId).value;
      var amount := req.value.amount.value;
      var (r, t') := ProcessPaymentSpec(t, req, callerId, draw, uuid, now);
      r == Err(GatewayDeclined(PaymentService.ProcessPayment(req.value.amount, draw, uuid).message)) &&
      t'.slots == t.slots &&
      LookupBooking(t', req.value.bookingId) ==
        Some(if FeeGap(b, amount) > 1.0 then b.(parkingFee := Some(amount)) else b) &&
      BookingsAgreeExcept(t, t', req.value.bookingId) &&
      (FeeGap(b, amount) <= 1.0 ==> t' == t)
  {
    var b := CheckedBooking(t, req, callerId).value;
    SaveBookingRowFound(t, AdjustFee(b, req.value.amount.value));
    SaveBookingRowKeepsOthers(t, AdjustFee(b, req.value.amount.value));
  }

  /** A non-positive amount is declined as invalid, yet a fee more than 1.0 away from it
      has already been overwritten with that amount. */
  lemma NonPositiveAmountStillCorrectsFee(t: Tables, req: Option<PaymentRequest>, callerId: int, draw: real, uuid: string, now: int)
    requires PaymentService.IsUuidText(uuid)
    requires ValidTables(t)
    requires CheckedBooking(t, req, callerId).Ok?
    requires req.value.amount.value <= 0.0
    requires FeeGap(CheckedBooking(t, req, callerId).value, req.value.amount.value) > 1.0
    ensures var (r, t') := ProcessPaymentSpec(t, req, callerId, draw, uuid, now);
      r == Err(GatewayDeclined("Invalid amount")) &&
      LookupBooking(t', req.value.bookingId) == Some(CheckedBooking(t, req, callerId).value.(parkingFee := req.value.amount))
  {
    DeclinedPaymentKeepsFeeCorrection(t, req, callerId, draw, uuid, now);
  }

  /** A payment the gateway accepts for a booking whose slot exists releases that slot and
      completes the booking as PAID with the gateway's transaction id, whatever the
      booking's status was before: CANCELLED and COMPLETED bookings are completed too. */
  lemma AcceptedPaymentCompletesBooking(t: Tables, req: Option<PaymentRequest>, callerId: int, draw: real, uuid: string, now: int)
    requires PaymentService.IsUuidText(uuid)
    requires ValidTables(t)
    requires CheckedBooking(t, req, callerId).Ok?
    requires PaymentService.ProcessPayment(req.value.amount, draw, uuid).success
    requires LookupSlot(t, CheckedBooking(t, req, callerId).value.slotId).Some?
    ensures var b := CheckedBooking(t, req, callerId).value;
      var s := LookupSlot(t, b.slotId).value;
      var txn := PaymentService.ProcessPayment(req.value.amount, draw, uuid).transactionId;
      var (r, t') := ProcessPaymentSpec(t, req, callerId, draw, uuid, now);
      r.Ok? && r.value.transactionId == txn && txn.Some? &&
      LookupSlot(t', b.slotId) == Some(s.(available := true)) &&
      LookupBooking(t', req.value.bookingId) ==
        Some(AdjustFee(b, req.value.amount.value).(status := Some(COMPLETED), paymentStatus := Some("PAID"),
                                                   paymentTime := Some(now), transactionId := txn)) &&
      BookingsAgreeExcept(t, t', req.value.bookingId) &&
      SlotsAgreeExcept(t, t', b.slotId)
  {
    var b := CheckedBooking(t, req, callerId).value;
    var amount := req.value.amount.value;
    var b1 := AdjustFee(b, amount);
    SaveBookingRowFound(t, b1);
    var t1 := if FeeGap(b, amount) > 1.0 then SaveBookingRow(t, b1).0 else t;
    assert t1.slots == t.slots;
    var s := LookupSlot(t1, b1.slotId).value;
    SaveSlotRowFound(t1, s.(available := true));
    var t2 := SaveSlotRow(t1, s.(available := true)).0;
    assert LookupBooking(t2, req.value.bookingId) == LookupBooking(t1, req.value.bookingId);
    var txn := PaymentService.ProcessPayment(req.value.amount, draw, uuid).transactionId;
    var b2 := b1.(status := Some(COMPLETED), paymentStatus := Some("PAID"), paymentTime := Some(now), transactionId := txn);
    SaveBookingRowFound(t2, b2);
    var t3 := SaveBookingRow(t2, b2).0;
    SaveBookingRowKeepsOthers(t, b1);
    SaveSlotRowKeepsOthers(t1, s.(available := true));
    SaveBookingRowKeepsOthers(t2, b2);
    forall y | Some(y) != req.value.bookingId
      ensures LookupBooking(t3, Some(y)) == LookupBooking(t, Some(y))
    {
      assert LookupBooking(t3, Some(y)) == LookupBooking(t2, Some(y)) == LookupBooking(t1, Some(y));
    }
    forall y | Some(y) != b.slotId
      ensures LookupSlot(t3, Some(y)) == LookupSlot(t, Some(y))
    {
      assert LookupSlot(t3, Some(y)) == LookupSlot(t2, Some(y)) == LookupSlot(t1, Some(y));
    }
  }

  /** `getPaymentHistory()`: the caller's COMPLETED bookings and their number. */
  function PaymentHistory(t: Tables, callerId: int): (r: (seq<BookingRecord>, nat))
    ensures r.1 == |r.0|
    ensures forall i :: 0 <= i < |r.0| ==> r.0[i].userId == Some(callerId) && r.0[i].status == Some(COMPLETED)
    ensures forall i :: 0 <= i < |t.bookings| && t.bookings[i].userId == Some(callerId) && t.bookings[i].status == Some(COMPLETED)
              ==> t.bookings[i] in r.0
  {
    var paid := FindByUserIdAndStatus(t.bookings, callerId, COMPLETED);
    (paid, |paid|)
  }

  /** The payment fields `getPaymentByBooking(bookingId)` reports. */
  datatype PaymentDetails = PaymentDetails(
    bookingId: Option<int>, amount: Option<real>, paymentStatus: Option<string>,
    transactionId: Option<string>, paymentTime: Option<int>)

  /** `getPaymentByBooking(bookingId)`: the booking's payment fields for its owner; 403 for
      another user, and the generic failure for a missing booking or owner. */
  function PaymentByBooking(t: Tables, bookingId: int, callerId: int): (r: Result<PaymentDetails, PaymentError>)
    ensures r.Ok? <==> LookupBooking(t, Some(bookingId)).Some? && LookupBooking(t, Some(bookingId)).value.userId == Some(callerId)
    ensures r.Ok? ==> var b := LookupBooking(t, Some(bookingId)).value;
              r.value == PaymentDetails(b.id, b.parkingFee, b.paymentStatus, b.transactionId, b.paymentTime)
    ensures r == Err(NotOwner) <==>
              LookupBooking(t, Some(bookingId)).Some? && LookupBooking(t, Some(bookingId)).value.userId.Some? &&
              LookupBooking(t, Some(bookingId)).value.userId.value != callerId
  {
    match LookupBooking(t, Some(bookingId))
    case None => Err(BookingNotFound(bookingId))
    case Some(b) =>
      if b.userId.None? then Err(OwnerMissing)
      else if b.userId.value != callerId then Err(NotOwner)
      else Ok(PaymentDetails(b.id, b.parkingFee, b.paymentStatus, b.transactionId, b.paymentTime))
  }
}
