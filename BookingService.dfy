/** The booking lifecycle engine: booking a slot, checking out (which prices the stay and
    leaves payment pending), cancelling, and repairing ACTIVE bookings that carry an exit
    time. Each operation is one transaction: a method on the store that works through the
    entity setters and saves, proved equal to a specification function on the tables; an
    error leaves the tables as they were (rollback). The lemmas state what the lifecycle
    promises in terms of those functions. */
module BookingService {
  import opened Common
  import opened Entities
  import opened Repository
  import opened Stores

  /** Why an operation threw. */
  datatype BookingError =
    | SlotNotFound
    | EntryTimeRequired
    | UserNotFound
    | InvalidTimeRange
    | TimeConflict
    | SlotUnavailable
    | UnderMaintenance
    | VehicleTypeMismatch(slotType: string, vehicleType: string)
    | BookingNotFound
    | NotActive(status: Option<ParkingStatus>)
    | CannotCancelCompleted

  /** Without an exit time, a new booking is checked for conflicts over this many minutes. */
  const DefaultWindowMinutes: int := 120

  // ------------------------------------------------------------------
  // bookSlot
  // ------------------------------------------------------------------

  function VehiclesOf(t: Tables, userId: int): seq<VehicleRecord>
  {
    Filter(t.vehicles, (v: VehicleRecord) => v.userId == userId)
  }

  function IsDefaultVehicle(v: VehicleRecord): bool
  {
    v.isDefault == Some(true)
  }

  predicate HasVehicleOfType(vs: seq<VehicleRecord>, vt: Option<VehicleType>)
  {
    exists i :: 0 <= i < |vs| && vs[i].vehicleType == vt
  }

  /** The vehicle type a booking is stored with. With a user: a type the user has
      registered is kept, otherwise the first default vehicle's type (or the first
      vehicle's) is used; a user without vehicles gets the profile type when it is set,
      else the requested type, else CAR. Without a user, a missing type becomes CAR. */
  function ResolveVehicleType(t: Tables, userId: Option<int>, requested: Option<VehicleType>,
                              fromString: string -> Option<VehicleType>): Result<Option<VehicleType>, BookingError>
  {
    match userId
    case None => Ok(if requested.None? then Some(CAR) else requested)
    case Some(u) =>
      if u !in t.users then Err(UserNotFound)
      else
        var vs := VehiclesOf(t, u);
        if vs != [] then
          if HasVehicleOfType(vs, requested) then Ok(requested)
          else
            match FirstIndex(vs, IsDefaultVehicle)
            case Some(i) => Ok(vs[i].vehicleType)
            case None => Ok(vs[0].vehicleType)
        else
          var profile := t.users[u].vehicleType;
          if profile.Some? && profile.value != "" then Ok(fromString(profile.value))
          else if requested.Some? then Ok(requested)
          else Ok(Some(CAR))
  }

  /** A user with registered vehicles always books with the type of one of them: the
      requested one when registered, else the first default, else the first vehicle. */
  lemma ResolvedTypeIsRegistered(t: Tables, u: int, requested: Option<VehicleType>, fromString: string -> Option<VehicleType>)
    requires u in t.users && VehiclesOf(t, u) != []
    ensures ResolveVehicleType(t, Some(u), requested, fromString).Ok?
    ensures HasVehicleOfType(VehiclesOf(t, u), ResolveVehicleType(t, Some(u), requested, fromString).value)
    ensures HasVehicleOfType(VehiclesOf(t, u), requested) ==> ResolveVehicleType(t, Some(u), requested, fromString) == Ok(requested)
    ensures !HasVehicleOfType(VehiclesOf(t, u), requested) && !(exists i :: 0 <= i < |VehiclesOf(t, u)| && IsDefaultVehicle(VehiclesOf(t, u)[i]))
            ==> ResolveVehicleType(t, Some(u), requested, fromString) == Ok(VehiclesOf(t, u)[0].vehicleType)
    ensures !HasVehicleOfType(VehiclesOf(t, u), requested) && FirstIndex(VehiclesOf(t, u), IsDefaultVehicle).Some?
            ==> ResolveVehicleType(t, Some(u), requested, fromString)
                == Ok(VehiclesOf(t, u)[FirstIndex(VehiclesOf(t, u), IsDefaultVehicle).value].vehicleType)
  {
    var vs := VehiclesOf(t, u);
    if !HasVehicleOfType(vs, requested) {
      match FirstIndex(vs, IsDefaultVehicle)
      case Some(i) =>
        assert vs[i].vehicleType == vs[i].vehicleType;
      case None =>
        assert vs[0].vehicleType == vs[0].vehicleType;
    }
  }

  /** A user without registered vehicles books with the profile type when it is set, else the
      requested type, else CAR; without a user the type falls back to CAR. */
  lemma ResolvedTypeWithoutVehicles(t: Tables, userId: Option<int>, requested: Option<VehicleType>, fromString: string -> Option<VehicleType>)
    requires userId.Some? ==> userId.value in t.users && VehiclesOf(t, userId.value) == []
    ensures var r := ResolveVehicleType(t, userId, requested, fromString);
      r.Ok? &&
      (userId.Some? && t.users[userId.value].vehicleType.Some? && t.users[userId.value].vehicleType.value != "" ==>
         r.value == fromString(t.users[userId.value].vehicleType.value)) &&
      (userId.Some? && (t.users[userId.value].vehicleType.None? || t.users[userId.value].vehicleType.value == "") ==>
         r.value == (if requested.Some? then requested else Some(CAR))) &&
      (userId.None? && requested.None? ==> r.value == Some(CAR))
  {
  }

  /** The slot type a booking is compared with: the stored type, or "CAR" when it is null or blank. */
  function EffectiveSlotType(s: SlotRecord): string
  {
    if s.slotType.None? || IsBlank(s.slotType.value) then "CAR" else s.slotType.value
  }

  /** `vehicleType.name()`, or "CAR" for a booking without a type. */
  function TypeName(v: Option<VehicleType>): string
  {
    if v.None? then "CAR" else v.value.Name()
  }

  /** The end of the window checked for conflicts: the exit time, or entry plus two hours. */
  function WindowEnd(b: BookingRecord): int
    requires b.entryTime.Some?
  {
    if b.exitTime.Some? then b.exitTime.value else b.entryTime.value + DefaultWindowMinutes
  }

  /** `bookSlot(booking)`: the booking as stored and the new tables, or the first check that failed. */
  function BookSlotSpec(t: Tables, req: BookingRecord, fromString: string -> Option<VehicleType>): (Result<BookingRecord, BookingError>, Tables)
  {
    match LookupSlot(t, req.slotId)
    case None => (Err(SlotNotFound), t)
    case Some(slot) =>
      if req.entryTime.None? then (Err(EntryTimeRequired), t)
      else
        match ResolveVehicleType(t, req.userId, req.vehicleType, fromString)
        case Err(e) => (Err(e), t)
        case Ok(vt) =>
          var b := req.(vehicleType := vt);
          if b.exitTime.Some? && b.entryTime.value > b.exitTime.value then (Err(InvalidTimeRange), t)
          else if HasTimeConflict(t.bookings, req.slotId.value, b.entryTime.value, WindowEnd(b)) then (Err(TimeConflict), t)
          else if !slot.available then (Err(SlotUnavailable), t)
          else if slot.isDisabled then (Err(UnderMaintenance), t)
          else if !EqualsIgnoreCase(EffectiveSlotType(slot), TypeName(vt)) then
            (Err(VehicleTypeMismatch(EffectiveSlotType(slot), TypeName(vt))), t)
          else
            var (t1, saved) := SaveBookingRow(t, b.(status := Some(ACTIVE)));
            var typed := if slot.slotType.None? || IsBlank(slot.slotType.value) then slot.(slotType := Some("CAR")) else slot;
            (Ok(saved), SaveSlotRow(t1, typed.(available := false)).0)
  }

  /** `bookSlot(booking)` on the store, through the entity setters. */
  method BookSlot(store: ParkingStore, booking: Booking, fromString: string -> Option<VehicleType>)
    returns (r: Result<BookingRecord, BookingError>)
    requires store.Valid()
    modifies store, booking
    ensures store.Valid()
    ensures (r, store.State()) == BookSlotSpec(old(store.State()), old(booking.Snapshot()), fromString)
  {
    ghost var t := store.State();
    ghost var req := booking.Snapshot();
    var slot := store.FindSlot(booking.slotId);
    if slot == null {
      return Err(SlotNotFound);
    }
    if booking.entryTime.None? {
      return Err(EntryTimeRequired);
    }
    var vt := ResolveVehicleType(store.State(), booking.userId, booking.vehicleType, fromString);
    if vt.Err? {
      return Err(vt.error);
    }
    booking.SetVehicleType(vt.value);
    if booking.exitTime.Some? && booking.entryTime.value > booking.exitTime.value {
      return Err(InvalidTimeRange);
    }
    var windowEnd := if booking.exitTime.Some? then booking.exitTime.value else booking.entryTime.value + DefaultWindowMinutes;
    if HasTimeConflict(store.bookings, booking.slotId.value, booking.entryTime.value, windowEnd) {
      return Err(TimeConflict);
    }
    if !slot.available {
      return Err(SlotUnavailable);
    }
    if slot.isDisabled {
      return Err(UnderMaintenance);
    }
    var slotType := if slot.slotType.None? then "CAR" else slot.slotType.value;
    if slot.slotType.None? || IsBlank(slot.slotType.value) {
      slotType := "CAR";
      slot.SetSlotType(Some("CAR"));
    }
    var bookingType := TypeName(booking.vehicleType);
    if !EqualsIgnoreCase(slotType, bookingType) {
      return Err(VehicleTypeMismatch(slotType, bookingType));
    }
    var saved := SaveActiveBooking(store, booking, slot);
    r := Ok(saved);
  }

  /** Saves the booking as ACTIVE, then the slot as unavailable. */
  method SaveActiveBooking(store: ParkingStore, booking: Booking, slot: Slot) returns (saved: BookingRecord)
    requires store.Valid()
    modifies store, booking, slot
    ensures store.Valid()
    ensures var (t1, row) := SaveBookingRow(old(store.State()), old(booking.Snapshot()).(status := Some(ACTIVE)));
      saved == row && store.State() == SaveSlotRow(t1, old(slot.Snapshot()).(available := false)).0
  {
    booking.SetStatus(Some(ACTIVE));
    SaveBookingRowFound(store.State(), booking.Snapshot());
    store.SaveBooking(booking);
    slot.SetAvailable(false);
    SaveSlotRowFound(store.State(), slot.Snapshot());
    store.SaveSlot(slot);
    saved := booking.Snapshot();
  }

  /** The checks of `bookSlot` run in a fixed order: a missing slot or entry time is reported
      before anything else is looked at, then a vehicle type that cannot be resolved, then an
      exit before the entry. A slot that is both occupied and under maintenance is reported
      as unavailable. A rejected booking writes nothing. */
  lemma BookSlotRejectionOrder(t: Tables, req: BookingRecord, fromString: string -> Option<VehicleType>)
    ensures LookupSlot(t, req.slotId).None? ==> BookSlotSpec(t, req, fromString) == (Err(SlotNotFound), t)
    ensures LookupSlot(t, req.slotId).Some? && req.entryTime.None? ==> BookSlotSpec(t, req, fromString) == (Err(EntryTimeRequired), t)
    ensures LookupSlot(t, req.slotId).Some? && req.entryTime.Some? &&
            ResolveVehicleType(t, req.userId, req.vehicleType, fromString).Err? ==>
            BookSlotSpec(t, req, fromString) == (Err(ResolveVehicleType(t, req.userId, req.vehicleType, fromString).error), t)
    ensures LookupSlot(t, req.slotId).Some? && req.entryTime.Some? && req.exitTime.Some? && req.exitTime.value < req.entryTime.value &&
            ResolveVehicleType(t, req.userId, req.vehicleType, fromString).Ok?
            ==> BookSlotSpec(t, req, fromString) == (Err(InvalidTimeRange), t)
    ensures var slot := LookupSlot(t, req.slotId);
            slot.Some? && !slot.value.available && slot.value.isDisabled ==>
            BookSlotSpec(t, req, fromString).0 != Err(UnderMaintenance)
    ensures BookSlotSpec(t, req, fromString).0.Err? ==> BookSlotSpec(t, req, fromString).1 == t
  {
  }

  /** Once the slot and entry are found, the vehicle type is resolved and the exit is not
      before the entry (an exit equal to the entry is accepted), the remaining checks come in
      order: a conflicting ACTIVE booking, an occupied slot, a slot under maintenance, and a
      slot type that differs from the vehicle type ignoring case; the booking succeeds exactly
      when all of them pass. */
  lemma BookSlotCheckOrder(t: Tables, req: BookingRecord, fromString: string -> Option<VehicleType>)
    requires LookupSlot(t, req.slotId).Some? && req.entryTime.Some?
    requires ResolveVehicleType(t, req.userId, req.vehicleType, fromString).Ok?
    requires req.exitTime.None? || req.entryTime.value <= req.exitTime.value
    ensures var slot := LookupSlot(t, req.slotId).value;
      var vt := ResolveVehicleType(t, req.userId, req.vehicleType, fromString).value;
      var conflict := HasTimeConflict(t.bookings, req.slotId.value, req.entryTime.value, WindowEnd(req));
      var r := BookSlotSpec(t, req, fromString).0;
      r != Err(InvalidTimeRange) &&
      (conflict ==> r == Err(TimeConflict)) &&
      (!conflict && !slot.available ==> r == Err(SlotUnavailable)) &&
      (!conflict && slot.available && slot.isDisabled ==> r == Err(UnderMaintenance)) &&
      (!conflict && slot.available && !slot.isDisabled && !EqualsIgnoreCase(EffectiveSlotType(slot), TypeName(vt)) ==>
         r == Err(VehicleTypeMismatch(EffectiveSlotType(slot), TypeName(vt)))) &&
      (r.Ok? <==> !conflict && slot.available && !slot.isDisabled && EqualsIgnoreCase(EffectiveSlotType(slot), TypeName(vt)))
  {
    var vt := ResolveVehicleType(t, req.userId, req.vehicleType, fromString).value;
    assert WindowEnd(req.(vehicleType := vt)) == WindowEnd(req);
  }

  /** A successful booking is stored ACTIVE with the resolved vehicle type, which matches the
      slot's type ignoring case, and its slot is then occupied; the slot's other fields are
      kept, except that a null or blank type becomes "CAR". The slot was available, not under
      maintenance, and had no conflicting booking. */
  lemma BookSlotSuccess(t: Tables, req: BookingRecord, fromString: string -> Option<VehicleType>)
    requires ValidTables(t)
    requires BookSlotSpec(t, req, fromString).0.Ok?
    ensures var (r, t') := BookSlotSpec(t, req, fromString);
      var slot := LookupSlot(t, req.slotId).value;
      var vt := ResolveVehicleType(t, req.userId, req.vehicleType, fromString).value;
      r.value.status == Some(ACTIVE) &&
      r.value.id.Some? &&
      LookupBooking(t', r.value.id) == Some(r.value) &&
      r.value == req.(id := r.value.id, status := Some(ACTIVE), vehicleType := vt) &&
      EqualsIgnoreCase(EffectiveSlotType(slot), TypeName(vt)) &&
      slot.available && !slot.isDisabled &&
      !HasTimeConflict(t.bookings, req.slotId.value, req.entryTime.value, WindowEnd(req)) &&
      LookupSlot(t', req.slotId) == Some(slot.(available := false, slotType := Some(EffectiveSlotType(slot))))
  {
    var slot := LookupSlot(t, req.slotId).value;
    var vt := ResolveVehicleType(t, req.userId, req.vehicleType, fromString).value;
    var b := req.(vehicleType := vt);
    SaveBookingRowFound(t, b.(status := Some(ACTIVE)));
    var (t1, saved) := SaveBookingRow(t, b.(status := Some(ACTIVE)));
    var typed := if slot.slotType.None? || IsBlank(slot.slotType.value) then slot.(slotType := Some("CAR")) else slot;
    assert LookupSlot(t1, req.slotId) == Some(slot);
    SaveSlotRowFound(t1, typed.(available := false));
  }

  /** A successful booking whose request id is not stored gets the next id; one whose request
      carries a stored id replaces that booking. No other booking and no other slot changes. */
  lemma BookSlotChangesOnlyItsRows(t: Tables, req: BookingRecord, fromString: string -> Option<VehicleType>)
    requires BookSlotSpec(t, req, fromString).0.Ok?
    ensures var (r, t') := BookSlotSpec(t, req, fromString);
      (BookingIndex(t, req.id).None? ==> r.value.id == Some(t.nextBookingId)) &&
      (BookingIndex(t, req.id).Some? ==> r.value.id == req.id) &&
      BookingsAgreeExcept(t, t', r.value.id) &&
      SlotsAgreeExcept(t, t', req.slotId)
  {
    var slot := LookupSlot(t, req.slotId).value;
    var vt := ResolveVehicleType(t, req.userId, req.vehicleType, fromString).value;
    var b := req.(vehicleType := vt).(status := Some(ACTIVE));
    var (t1, saved) := SaveBookingRow(t, b);
    var typed := if slot.slotType.None? || IsBlank(slot.slotType.value) then slot.(slotType := Some("CAR")) else slot;
    SaveThenSaveFrame(t, b, typed.(available := false));
    assert BookSlotSpec(t, req, fromString) == (Ok(saved), SaveSlotRow(t1, typed.(available := false)).0);
  }

  /** Saving a booking and then a slot changes no other booking and no other slot. */
  lemma SaveThenSaveFrame(t: Tables, b: BookingRecord, s: SlotRecord)
    ensures var (t1, saved) := SaveBookingRow(t, b);
      var (t', row) := SaveSlotRow(t1, s);
      BookingsAgreeExcept(t, t', saved.id) && SlotsAgreeExcept(t, t', row.id)
  {
    var (t1, saved) := SaveBookingRow(t, b);
    var (t', row) := SaveSlotRow(t1, s);
    SaveBookingRowKeepsOthers(t, b);
    SaveSlotRowKeepsOthers(t1, s);
    forall y | Some(y) != saved.id
      ensures LookupBooking(t', Some(y)) == LookupBooking(t, Some(y))
    {
      assert LookupBooking(t', Some(y)) == LookupBooking(t1, Some(y));
    }
    forall y | Some(y) != row.id
      ensures LookupSlot(t', Some(y)) == LookupSlot(t, Some(y))
    {
      assert LookupSlot(t', Some(y)) == LookupSlot(t1, Some(y));
    }
  }

  /** Once a slot is booked, booking it again fails until it is released. */
  lemma BookedSlotCannotBeBookedAgain(t: Tables, req: BookingRecord, req2: BookingRecord, fromString: string -> Option<VehicleType>)
    requires ValidTables(t)
    requires BookSlotSpec(t, req, fromString).0.Ok?
    requires req2.slotId == req.slotId
    ensures BookSlotSpec(BookSlotSpec(t, req, fromString).1, req2, fromString).0.Err?
  {
    BookSlotSuccess(t, req, fromString);
  }

  /** The new booking itself blocks its window: a second request for the same slot and
      a window of positive length starting at the same entry time finds a conflict. */
  lemma BookSlotBlocksItsWindow(t: Tables, req: BookingRecord, fromString: string -> Option<VehicleType>)
    requires ValidTables(t)
    requires BookSlotSpec(t, req, fromString).0.Ok?
    requires req.entryTime.value < WindowEnd(req)
    ensures HasTimeConflict(BookSlotSpec(t, req, fromString).1.bookings, req.slotId.value, req.entryTime.value, WindowEnd(req))
  {
    BookSlotSuccess(t, req, fromString);
    var (r, t') := BookSlotSpec(t, req, fromString);
    var i := BookingIndex(t', r.value.id).value;
    assert ConflictsWith(t'.bookings[i], req.slotId.value, req.entryTime.value, WindowEnd(req));
  }

  // ------------------------------------------------------------------
  // checkoutBooking
  // ------------------------------------------------------------------

  /** The fee calculator the checkout consults; its rules are not part of this model. */
  datatype FeeCalculator = FeeCalculator(
    durationMinutes: (Option<int>, int) -> int,
    feeFor: (Option<int>, int, VehicleType, Option<int>) -> real,
    defaultFee: (Option<int>, int) -> real,
    rateFor: (Option<int>, VehicleType) -> real,
    defaultRate: real)

  datatype CheckoutResponse = CheckoutResponse(
    bookingId: int,
    slotId: Option<int>,
    vehicleType: string,
    entryTime: Option<int>,
    exitTime: Option<int>,
    durationMinutes: int,
    appliedRate: real,
    parkingFee: real,
    paid: bool,
    transactionId: Option<string>,
    message: string)

  /** The location priced at checkout: the slot's location, or none when the slot is missing. */
  function CheckoutLocation(t: Tables, b: BookingRecord): Option<int>
  {
    match LookupSlot(t, b.slotId)
    case None => None
    case Some(s) => s.locationId
  }

  function CheckoutFee(fees: FeeCalculator, b: BookingRecord, exitTime: int, locationId: Option<int>): real
  {
    if b.vehicleType.Some? then fees.feeFor(b.entryTime, exitTime, b.vehicleType.value, locationId)
    else fees.defaultFee(b.entryTime, exitTime)
  }

  /** `checkoutBooking(bookingId)` at time `now`. */
  function CheckoutSpec(t: Tables, bookingId: int, now: int, fees: FeeCalculator): (Result<CheckoutResponse, BookingError>, Tables)
  {
    match LookupBooking(t, Some(bookingId))
    case None => (Err(BookingNotFound), t)
    case Some(b) =>
      if b.status != Some(ACTIVE) then (Err(NotActive(b.status)), t)
      else
        var locationId := CheckoutLocation(t, b);
        var fee := CheckoutFee(fees, b, now, locationId);
        var rate := if b.vehicleType.Some? then fees.rateFor(locationId, b.vehicleType.value) else fees.defaultRate;
        var b' := b.(exitTime := Some(now), parkingFee := Some(fee), paymentStatus := Some("PENDING_PAYMENT"));
        (Ok(CheckoutResponse(bookingId, b.slotId, TypeName(b.vehicleType), b.entryTime, Some(now),
                             fees.durationMinutes(b.entryTime, now), rate, fee, false, None, "Pending payment")),
         SaveBookingRow(t, b').0)
  }

  method CheckoutBooking(store: ParkingStore, bookingId: int, now: int, fees: FeeCalculator)
    returns (r: Result<CheckoutResponse, BookingError>)
    requires store.Valid()
    modifies store
    ensures store.Valid()
    ensures (r, store.State()) == CheckoutSpec(old(store.State()), bookingId, now, fees)
  {
    var booking := store.FindBooking(Some(bookingId));
    if booking == null {
      return Err(BookingNotFound);
    }
    if booking.status != Some(ACTIVE) {
      return Err(NotActive(booking.status));
    }
    var exitTime := now;
    booking.SetExitTime(Some(exitTime));
    var durationMinutes := fees.durationMinutes(booking.entryTime, exitTime);
    var locationId: Option<int> := None;
    var slot := store.FindSlot(booking.slotId);
    if slot != null && slot.locationId.Some? {
      locationId := slot.locationId;
    }
    var parkingFee: real;
    if booking.vehicleType.Some? {
      parkingFee := fees.feeFor(booking.entryTime, exitTime, booking.vehicleType.value, locationId);
    } else {
      parkingFee := fees.defaultFee(booking.entryTime, exitTime);
    }
    var vehicleTypeName := TypeName(booking.vehicleType);
    var appliedRate := if booking.vehicleType.Some? then fees.rateFor(locationId, booking.vehicleType.value) else fees.defaultRate;
    booking.SetParkingFee(Some(parkingFee));
    booking.SetPaymentStatus(Some("PENDING_PAYMENT"));
    SaveBookingRowFound(store.State(), booking.Snapshot());
    store.SaveBooking(booking);
    r := Ok(CheckoutResponse(bookingId, booking.slotId, vehicleTypeName, booking.entryTime, booking.exitTime,
                             durationMinutes, appliedRate, parkingFee, false, None, "Pending payment"));
  }

  /** Checkout only accepts ACTIVE bookings, and then stamps exit time, fee and
      PENDING_PAYMENT while the booking stays ACTIVE and no slot changes; the response
      reports the payment as not made. */
  lemma CheckoutLeavesBookingActive(t: Tables, bookingId: int, now: int, fees: FeeCalculator)
    requires ValidTables(t)
    ensures var (r, t') := CheckoutSpec(t, bookingId, now, fees);
      var b := LookupBooking(t, Some(bookingId));
      (r.Ok? <==> b.Some? && b.value.status == Some(ACTIVE)) &&
      (r.Err? ==> t' == t) &&
      (r.Ok? ==>
        t'.slots == t.slots &&
        !r.value.paid && r.value.transactionId.None? &&
        LookupBooking(t', Some(bookingId)) == Some(b.value.(exitTime := Some(now), parkingFee := Some(r.value.parkingFee),
                                                           paymentStatus := Some("PENDING_PAYMENT"))) &&
        BookingsAgreeExcept(t, t', Some(bookingId)))
  {
    var b := LookupBooking(t, Some(bookingId));
    if b.Some? && b.value.status == Some(ACTIVE) {
      var fee := CheckoutFee(fees, b.value, now, CheckoutLocation(t, b.value));
      SaveBookingRowFound(t, b.value.(exitTime := Some(now), parkingFee := Some(fee), paymentStatus := Some("PENDING_PAYMENT")));
      SaveBookingRowKeepsOthers(t, b.value.(exitTime := Some(now), parkingFee := Some(fee), paymentStatus := Some("PENDING_PAYMENT")));
    }
  }

  // ------------------------------------------------------------------
  // cancelBooking
  // ------------------------------------------------------------------

  /** `cancelBooking(bookingId)` at time `now`: the booking becomes CANCELLED and its slot
      available; a missing slot rolls the cancellation back. */
  function CancelSpec(t: Tables, bookingId: int, now: int): (Result<(), BookingError>, Tables)
  {
    match LookupBooking(t, Some(bookingId))
    case None => (Err(BookingNotFound), t)
    case Some(b) =>
      if b.status == Some(COMPLETED) then (Err(CannotCancelCompleted), t)
      else
        var b' := b.(status := Some(CANCELLED), exitTime := if b.exitTime.None? then Some(now) else b.exitTime);
        var t1 := SaveBookingRow(t, b').0;
        match LookupSlot(t1, b'.slotId)
        case None => (Err(SlotNotFound), t)
        case Some(s) => (Ok(()), SaveSlotRow(t1, s.(available := true)).0)
  }

  method CancelBooking(store: ParkingStore, bookingId: int, now: int) returns (r: Result<(), BookingError>)
    requires store.Valid()
    modifies store
    ensures store.Valid()
    ensures (r, store.State()) == CancelSpec(old(store.State()), bookingId, now)
  {
    // the rows the transaction restores when it rolls back
    var rollbackBookings, rollbackNextId := store.bookings, store.nextBookingId;
    var booking := store.FindBooking(Some(bookingId));
    if booking == null {
      return Err(BookingNotFound);
    }
    if booking.status == Some(COMPLETED) {
      return Err(CannotCancelCompleted);
    }
    ghost var t, b := store.State(), booking.Snapshot();
    booking.SetStatus(Some(CANCELLED));
    if booking.exitTime.None? {
      booking.SetExitTime(Some(now));
    }
    ghost var b' := booking.Snapshot();
    assert b' == b.(status := Some(CANCELLED), exitTime := if b.exitTime.None? then Some(now) else b.exitTime);
    SaveBookingRowFound(t, b');
    store.SaveBooking(booking);
    assert store.State() == SaveBookingRow(t, b').0;
    var released := ReleaseSlot(store, booking.slotId);
    if !released {
      store.bookings, store.nextBookingId := rollbackBookings, rollbackNextId;
      return Err(SlotNotFound);
    }
    r := Ok(());
  }

  /** Marks the slot available again; says whether the slot exists. */
  method ReleaseSlot(store: ParkingStore, slotId: Option<int>) returns (found: bool)
    requires store.Valid()
    modifies store
    ensures store.Valid()
    ensures found <==> LookupSlot(old(store.State()), slotId).Some?
    ensures found ==>
      store.State() == SaveSlotRow(old(store.State()), LookupSlot(old(store.State()), slotId).value.(available := true)).0
    ensures !found ==> store.State() == old(store.State())
  {
    var slot := store.FindSlot(slotId);
    if slot == null {
      return false;
    }
    slot.SetAvailable(true);
    SaveSlotRowFound(store.State(), slot.Snapshot());
    store.SaveSlot(slot);
    found := true;
  }

  /** Cancelling fails only for a missing or COMPLETED booking or a missing slot; otherwise the
      booking is CANCELLED with an exit time (the old one when it had one) and its slot is
      available again. A CANCELLED booking can be cancelled again. */
  lemma CancelReleasesSlot(t: Tables, bookingId: int, now: int)
    requires ValidTables(t)
    ensures var (r, t') := CancelSpec(t, bookingId, now);
      var b := LookupBooking(t, Some(bookingId));
      (r.Err? ==> t' == t) &&
      (b.None? ==> r == Err(BookingNotFound)) &&
      (b.Some? && b.value.status == Some(COMPLETED) ==> r == Err(CannotCancelCompleted)) &&
      (b.Some? && b.value.status != Some(COMPLETED) && LookupSlot(t, b.value.slotId).None? ==> r == Err(SlotNotFound)) &&
      (b.Some? && b.value.status != Some(COMPLETED) && LookupSlot(t, b.value.slotId).Some? ==>
        r.Ok? &&
        LookupBooking(t', Some(bookingId)) ==
          Some(b.value.(status := Some(CANCELLED), exitTime := if b.value.exitTime.None? then Some(now) else b.value.exitTime)) &&
        LookupSlot(t', b.value.slotId) == Some(LookupSlot(t, b.value.slotId).value.(available := true)) &&
        BookingsAgreeExcept(t, t', Some(bookingId)) &&
        SlotsAgreeExcept(t, t', b.value.slotId))
  {
    var b := LookupBooking(t, Some(bookingId));
    if b.Some? && b.value.status != Some(COMPLETED) {
      var b' := b.value.(status := Some(CANCELLED), exitTime := if b.value.exitTime.None? then Some(now) else b.value.exitTime);
      SaveBookingRowFound(t, b');
      var t1 := SaveBookingRow(t, b').0;
      assert t1.slots == t.slots;
      var s := LookupSlot(t1, b'.slotId);
      if s.Some? {
        SaveSlotRowFound(t1, s.value.(available := true));
        var t2 := SaveSlotRow(t1, s.value.(available := true)).0;
        assert BookingIndex(t2, Some(bookingId)) == BookingIndex(t1, Some(bookingId));
        SaveThenSaveFrame(t, b', s.value.(available := true));
      }
    }
  }

  /** Cancelling never creates a booking conflict: any window in conflict afterwards was in
      conflict before. */
  lemma CancelCreatesNoConflict(t: Tables, bookingId: int, now: int, slotId: int, entryTime: int, exitTime: int)
    requires ValidTables(t)
    ensures HasTimeConflict(CancelSpec(t, bookingId, now).1.bookings, slotId, entryTime, exitTime)
            ==> HasTimeConflict(t.bookings, slotId, entryTime, exitTime)
  {
    var (r, t') := CancelSpec(t, bookingId, now);
    var b := LookupBooking(t, Some(bookingId));
    if r.Ok? {
      var i := BookingIndex(t, Some(bookingId)).value;
      var b' := b.value.(status := Some(CANCELLED), exitTime := if b.value.exitTime.None? then Some(now) else b.value.exitTime);
      var t1 := SaveBookingRow(t, b').0;
      assert t1.bookings == t.bookings[i := b'];
      assert t'.bookings == t1.bookings;
      DeactivationCreatesNoConflict(t.bookings, t'.bookings, slotId, entryTime, exitTime);
    }
  }

  // ------------------------------------------------------------------
  // fixCorruptedBooking
  // ------------------------------------------------------------------

  /** An ACTIVE booking that already has an exit time. */
  predicate IsCorrupted(b: BookingRecord)
  {
    b.status == Some(ACTIVE) && b.exitTime.Some?
  }

  /** `fixCorruptedBooking(bookingId)`: clears the exit time of a corrupted booking; any
      other booking is returned unchanged. */
  function FixCorruptedSpec(t: Tables, bookingId: int): (Result<BookingRecord, BookingError>, Tables)
  {
    match LookupBooking(t, Some(bookingId))
    case None => (Err(BookingNotFound), t)
    case Some(b) =>
      if IsCorrupted(b) then
        var (t1, saved) := SaveBookingRow(t, b.(exitTime := None));
        (Ok(saved), t1)
      else (Ok(b), t)
  }

  method FixCorruptedBooking(store: ParkingStore, bookingId: int) returns (r: Result<BookingRecord, BookingError>)
    requires store.Valid()
    modifies store
    ensures store.Valid()
    ensures (r, store.State()) == FixCorruptedSpec(old(store.State()), bookingId)
  {
    var booking := store.FindBooking(Some(bookingId));
    if booking == null {
      return Err(BookingNotFound);
    }
    if booking.status == Some(ACTIVE) && booking.exitTime.Some? {
      booking.SetExitTime(None);
      SaveBookingRowFound(store.State(), booking.Snapshot());
      store.SaveBooking(booking);
      return Ok(booking.Snapshot());
    }
    r := Ok(booking.Snapshot());
  }

  /** The repair clears the exit time exactly when the booking is ACTIVE with an exit time,
      changes nothing else, and a second repair changes nothing. */
  lemma FixCorruptedClearsExitOnly(t: Tables, bookingId: int)
    requires ValidTables(t)
    requires LookupBooking(t, Some(bookingId)).Some?
    ensures var b := LookupBooking(t, Some(bookingId)).value;
      var (r, t') := FixCorruptedSpec(t, bookingId);
      r.Ok? && ValidTables(t') &&
      (IsCorrupted(b) ==> LookupBooking(t', Some(bookingId)) == Some(b.(exitTime := None)) && t'.slots == t.slots) &&
      (!IsCorrupted(b) ==> t' == t) &&
      FixCorruptedSpec(t', bookingId).1 == t'
  {
    var b := LookupBooking(t, Some(bookingId)).value;
    if IsCorrupted(b) {
      SaveBookingRowFound(t, b.(exitTime := None));
    }
  }

  /** A checked-out booking that has not been paid is exactly what the repair treats as
      corrupted: repairing it right after checkout removes the exit time checkout recorded. */
  lemma RepairUndoesCheckoutExit(t: Tables, bookingId: int, now: int, fees: FeeCalculator)
    requires ValidTables(t)
    requires CheckoutSpec(t, bookingId, now, fees).0.Ok?
    ensures var t1 := CheckoutSpec(t, bookingId, now, fees).1;
      LookupBooking(t1, Some(bookingId)).Some? &&
      IsCorrupted(LookupBooking(t1, Some(bookingId)).value) &&
      LookupBooking(FixCorruptedSpec(t1, bookingId).1, Some(bookingId)) ==
        Some(LookupBooking(t1, Some(bookingId)).value.(exitTime := None))
  {
    CheckoutLeavesBookingActive(t, bookingId, now, fees);
    var t1 := CheckoutSpec(t, bookingId, now, fees).1;
    SaveBookingRowFound(t, LookupBooking(t, Some(bookingId)).value);
    assert ValidTables(t1) by {
      var b := LookupBooking(t, Some(bookingId)).value;
      var fee := CheckoutFee(fees, b, now, CheckoutLocation(t, b));
      SaveBookingRowFound(t, b.(exitTime := Some(now), parkingFee := Some(fee), paymentStatus := Some("PENDING_PAYMENT")));
    }
    FixCorruptedClearsExitOnly(t1, bookingId);
  }

  // ------------------------------------------------------------------
  // Booking views
  // ------------------------------------------------------------------

  /** The booking view the user's booking list and the admin listing return. Fields that
      only the list fills in (duration, location) are `None` in the admin view, and the
      user's details only the admin view fills in are `None` in the list. */
  datatype BookingResponse = BookingResponse(
    id: Option<int>,
    slotId: Option<int>,
    slotNumber: Option<string>,
    vehicleType: string,
    entryTime: Option<int>,
    exitTime: Option<int>,
    durationMinutes: Option<int>,
    locationName: Option<string>,
    status: string,
    parkingFee: Option<real>,
    transactionId: Option<string>,
    user: Option<UserInfo>)

  /** `BookingResponse.UserInfo`: the user's id, name and e-mail, and a fourth contact field
      that `convertToResponse` fills with the e-mail again. */
  datatype UserInfo = UserInfo(id: int, name: Option<string>, email: Option<string>, contact: Option<string>)

  /** The status shown for a booking: its name, or "ACTIVE" when null. */
  function StatusName(s: Option<ParkingStatus>): string
  {
    if s.None? then "ACTIVE" else s.value.Name()
  }

  /** Minutes between entry and exit, or 0 when either is missing. */
  function DurationMinutes(b: BookingRecord): int
  {
    if b.entryTime.Some? && b.exitTime.Some? then b.exitTime.value - b.entryTime.value else 0
  }

  /** The name of the location of a slot, or "Unknown". */
  function LocationName(t: Tables, s: Option<SlotRecord>): Option<string>
  {
    if s.Some? && s.value.locationId.Some? && s.value.locationId.value in t.locations
    then t.locations[s.value.locationId.value]
    else Some("Unknown")
  }

  /** One element of `getUserBookings`; a null slot id fails the lookup and the whole list. */
  function UserBookingView(t: Tables, b: BookingRecord): (r: Result<BookingResponse, BookingError>)
    ensures b.slotId.None? <==> r.Err?
    ensures r.Ok? ==> r.value.vehicleType == TypeName(b.vehicleType) && r.value.status == StatusName(b.status)
    ensures r.Ok? ==> r.value.durationMinutes == Some(DurationMinutes(b))
    ensures r.Ok? && LookupSlot(t, b.slotId).None? ==> r.value.slotNumber == Some("N/A") && r.value.locationName == Some("Unknown")
  {
    if b.slotId.None? then Err(SlotNotFound)
    else
      var slot := LookupSlot(t, b.slotId);
      Ok(BookingResponse(b.id, b.slotId, if slot.Some? then slot.value.slotNumber else Some("N/A"),
                         TypeName(b.vehicleType), b.entryTime, b.exitTime, Some(DurationMinutes(b)),
                         LocationName(t, slot), StatusName(b.status), b.parkingFee, b.transactionId, None))
  }

  /** `getUserBookings(userId)`: the view of each of the user's bookings, in storage order. */
  function GetUserBookings(t: Tables, userId: int): (r: Result<seq<BookingResponse>, BookingError>)
    ensures r.Ok? ==> |r.value| == |FindByUserId(t.bookings, userId)|
    ensures r.Ok? ==> forall i :: 0 <= i < |r.value| ==> Ok(r.value[i]) == UserBookingView(t, FindByUserId(t.bookings, userId)[i])
    ensures r.Err? <==> exists i :: 0 <= i < |FindByUserId(t.bookings, userId)| && FindByUserId(t.bookings, userId)[i].slotId.None?
  {
    ViewAll(t, FindByUserId(t.bookings, userId))
  }

  function ViewAll(t: Tables, bs: seq<BookingRecord>): (r: Result<seq<BookingResponse>, BookingError>)
    ensures r.Ok? ==> |r.value| == |bs|
    ensures r.Ok? ==> forall i :: 0 <= i < |bs| ==> Ok(r.value[i]) == UserBookingView(t, bs[i])
    ensures r.Err? <==> exists i :: 0 <= i < |bs| && bs[i].slotId.None?
    decreases |bs|
  {
    if bs == [] then Ok([])
    else
      match UserBookingView(t, bs[0])
      case Err(e) => Err(e)
      case Ok(v) =>
        match ViewAll(t, bs[1..])
        case Err(e) => Err(e)
        case Ok(vs) =>
          assert forall i :: 1 <= i < |bs| ==> bs[i] == bs[1..][i - 1];
          Ok([v] + vs)
  }

  /** `convertToResponse(booking)`: the admin view, with the same defaults for type and status. */
  function ConvertToResponse(t: Tables, b: BookingRecord): (r: Result<BookingResponse, BookingError>)
    ensures b.slotId.None? <==> r.Err?
    ensures r.Ok? ==>
      r.value.id == b.id && r.value.slotId == b.slotId &&
      r.value.entryTime == b.entryTime && r.value.exitTime == b.exitTime &&
      r.value.parkingFee == b.parkingFee && r.value.transactionId == b.transactionId
    ensures r.Ok? ==> r.value.vehicleType == TypeName(b.vehicleType) && r.value.status == StatusName(b.status)
    ensures r.Ok? && LookupSlot(t, b.slotId).None? ==> r.value.slotNumber == Some("N/A")
    ensures r.Ok? && LookupSlot(t, b.slotId).Some? ==> r.value.slotNumber == LookupSlot(t, b.slotId).value.slotNumber
    ensures r.Ok? ==> (r.value.user.Some? <==> b.userId.Some? && b.userId.value in t.users)
    ensures r.Ok? && r.value.user.Some? ==>
      var u := t.users[b.userId.value];
      r.value.user.value.id == u.id && r.value.user.value.name == u.name &&
      r.value.user.value.email == u.email && r.value.user.value.contact == u.email
  {
    if b.slotId.None? then Err(SlotNotFound)
    else
      var slot := LookupSlot(t, b.slotId);
      var user := if b.userId.Some? && b.userId.value in t.users then
                    var u := t.users[b.userId.value]; Some(UserInfo(u.id, u.name, u.email, u.email))
                  else None;
      Ok(BookingResponse(b.id, b.slotId, if slot.Some? then slot.value.slotNumber else Some("N/A"),
                         TypeName(b.vehicleType), b.entryTime, b.exitTime, None, None,
                         StatusName(b.status), b.parkingFee, b.transactionId, user))
  }

}
