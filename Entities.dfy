/** The two persisted records of the parking system, `Booking` and `Slot`, as the mutable
    objects the services change through setters, together with the value each object
    holds at a given moment (`BookingRecord`, `SlotRecord`), which is what a table row
    stores. Times are whole minutes; nullable Java fields are `Option`s. */
module Entities {
  import opened Common

  /** The lifecycle state of a booking (Booking.ParkingStatus). */
  datatype ParkingStatus = ACTIVE | COMPLETED | CANCELLED
  {
    /** `status.toString()`. */
    function Name(): string
    {
      match this
      case ACTIVE => "ACTIVE"
      case COMPLETED => "COMPLETED"
      case CANCELLED => "CANCELLED"
    }
  }

  /** The vehicle categories a booking may carry. */
  datatype VehicleType = BIKE | CAR | SUV | TRUCK
  {
    /** `vehicleType.name()`. */
    function Name(): string
    {
      match this
      case BIKE => "BIKE"
      case CAR => "CAR"
      case SUV => "SUV"
      case TRUCK => "TRUCK"
    }
  }

  /** Every field of a `Booking` object at one moment. */
  datatype BookingRecord = BookingRecord(
    id: Option<int>,
    userId: Option<int>,
    slotId: Option<int>,
    vehicleType: Option<VehicleType>,
    entryTime: Option<int>,
    exitTime: Option<int>,
    status: Option<ParkingStatus>,
    parkingFee: Option<real>,
    transactionId: Option<string>,
    paymentStatus: Option<string>,
    paymentTime: Option<int>)

  /** The record of `new Booking()`: only the status has a default, ACTIVE. */
  function NewBookingRecord(): (r: BookingRecord)
    ensures r.status == Some(ACTIVE)
    ensures r.id.None? && r.userId.None? && r.slotId.None? && r.vehicleType.None?
    ensures r.entryTime.None? && r.exitTime.None? && r.parkingFee.None?
    ensures r.transactionId.None? && r.paymentStatus.None? && r.paymentTime.None?
  {
    BookingRecord(None, None, None, None, None, None, Some(ACTIVE), None, None, None, None)
  }

  /** A Java `Booking`: each setter replaces exactly one field. */
  class Booking {
    var id: Option<int>
    var userId: Option<int>
    var slotId: Option<int>
    var vehicleType: Option<VehicleType>
    var entryTime: Option<int>
    var exitTime: Option<int>
    var status: Option<ParkingStatus>
    var parkingFee: Option<real>
    var transactionId: Option<string>
    var paymentStatus: Option<string>
    var paymentTime: Option<int>

    function Snapshot(): BookingRecord
      reads this
    {
      BookingRecord(id, userId, slotId, vehicleType, entryTime, exitTime, status,
                    parkingFee, transactionId, paymentStatus, paymentTime)
    }

    /** `new Booking()`. */
    constructor ()
      ensures Snapshot() == NewBookingRecord()
    {
      id, userId, slotId, vehicleType := None, None, None, None;
      entryTime, exitTime, status := None, None, Some(ACTIVE);
      parkingFee, transactionId, paymentStatus, paymentTime := None, None, None, None;
    }

    /** `new Booking(userId, slotId, entryTime)`: those three fields, status ACTIVE, the rest null. */
    constructor WithEntry(userId: Option<int>, slotId: Option<int>, entryTime: Option<int>)
      ensures Snapshot() == NewBookingRecord().(userId := userId, slotId := slotId, entryTime := entryTime)
    {
      this.id, this.userId, this.slotId, this.vehicleType := None, userId, slotId, None;
      this.entryTime, this.exitTime, this.status := entryTime, None, Some(ACTIVE);
      this.parkingFee, this.transactionId, this.paymentStatus, this.paymentTime := None, None, None, None;
    }

    /** The managed object a repository hands out for a stored row. */
    constructor Load(r: BookingRecord)
      ensures Snapshot() == r
    {
      id, userId, slotId, vehicleType := r.id, r.userId, r.slotId, r.vehicleType;
      entryTime, exitTime, status := r.entryTime, r.exitTime, r.status;
      parkingFee, transactionId, paymentStatus, paymentTime := r.parkingFee, r.transactionId, r.paymentStatus, r.paymentTime;
    }

    method SetId(v: Option<int>)
      modifies this
      ensures Snapshot() == old(Snapshot()).(id := v)
    {
      id := v;
    }

    method SetUserId(v: Option<int>)
      modifies this
      ensures Snapshot() == old(Snapshot()).(userId := v)
    {
      userId := v;
    }

    method SetVehicleType(v: Option<VehicleType>)
      modifies this
      ensures Snapshot() == old(Snapshot()).(vehicleType := v)
    {
      vehicleType := v;
    }

    method SetExitTime(v: Option<int>)
      modifies this
      ensures Snapshot() == old(Snapshot()).(exitTime := v)
    {
      exitTime := v;
    }

    method SetStatus(v: Option<ParkingStatus>)
      modifies this
      ensures Snapshot() == old(Snapshot()).(status := v)
    {
      status := v;
    }

    method SetParkingFee(v: Option<real>)
      modifies this
      ensures Snapshot() == old(Snapshot()).(parkingFee := v)
    {
      parkingFee := v;
    }

    method SetTransactionId(v: Option<string>)
      modifies this
      ensures Snapshot() == old(Snapshot()).(transactionId := v)
    {
      transactionId := v;
    }

    method SetPaymentStatus(v: Option<string>)
      modifies this
      ensures Snapshot() == old(Snapshot()).(paymentStatus := v)
    {
      paymentStatus := v;
    }

    method SetPaymentTime(v: Option<int>)
      modifies this
      ensures Snapshot() == old(Snapshot()).(paymentTime := v)
    {
      paymentTime := v;
    }

    /** `getStartTime()`, the older name of the entry time. */
    function StartTime(): (t: Option<int>)
      reads this
      ensures t == Snapshot().entryTime
    {
      entryTime
    }

    /** `setStartTime(t)` writes the entry time and nothing else. */
    method SetStartTime(t: Option<int>)
      modifies this
      ensures Snapshot() == old(Snapshot()).(entryTime := t)
      ensures StartTime() == t
    {
      entryTime := t;
    }

    /** `getEndTime()`, the older name of the exit time. */
    function EndTime(): (t: Option<int>)
      reads this
      ensures t == Snapshot().exitTime
    {
      exitTime
    }

    /** `setEndTime(t)` writes the exit time and nothing else. */
    method SetEndTime(t: Option<int>)
      modifies this
      ensures Snapshot() == old(Snapshot()).(exitTime := t)
      ensures EndTime() == t
    {
      exitTime := t;
    }
  }

  /** Every field of a `Slot` object at one moment; the location is kept by its id. */
  datatype SlotRecord = SlotRecord(
    id: Option<int>,
    slotNumber: Option<string>,
    available: bool,
    isDisabled: bool,
    maintenanceNotes: Option<string>,
    slotType: Option<string>,
    locationId: Option<int>)

  /** The record of `new Slot()`: available, not disabled, type "CAR". */
  function NewSlotRecord(): (r: SlotRecord)
    ensures r.available && !r.isDisabled && r.slotType == Some("CAR")
    ensures r.id.None? && r.slotNumber.None? && r.maintenanceNotes.None? && r.locationId.None?
  {
    SlotRecord(None, None, true, false, None, Some("CAR"), None)
  }

  /** What `setSlotType(v)` stores: the value given, or "CAR" for null. */
  function StoredSlotType(v: Option<string>): (r: string)
    ensures v.None? ==> r == "CAR"
    ensures v.Some? ==> r == v.value
  {
    match v
    case None => "CAR"
    case Some(t) => t
  }

  /** A Java `Slot`: each setter replaces exactly one field. */
  class Slot {
    var id: Option<int>
    var slotNumber: Option<string>
    var available: bool
    var isDisabled: bool
    var maintenanceNotes: Option<string>
    var slotType: Option<string>
    var locationId: Option<int>

    function Snapshot(): SlotRecord
      reads this
    {
      SlotRecord(id, slotNumber, available, isDisabled, maintenanceNotes, slotType, locationId)
    }

    /** `new Slot()`. */
    constructor ()
      ensures Snapshot() == NewSlotRecord()
    {
      id, slotNumber, available, isDisabled := None, None, true, false;
      maintenanceNotes, slotType, locationId := None, Some("CAR"), None;
    }

    /** `new Slot(slotNumber, location)`: the defaults of `new Slot()`, still available. */
    constructor WithNumber(slotNumber: Option<string>, locationId: Option<int>)
      ensures Snapshot() == NewSlotRecord().(slotNumber := slotNumber, locationId := locationId)
      ensures available
    {
      this.id, this.slotNumber, this.available, this.isDisabled := None, slotNumber, true, false;
      this.maintenanceNotes, this.slotType, this.locationId := None, Some("CAR"), locationId;
    }

    /** The managed object a repository hands out for a stored row. */
    constructor Load(r: SlotRecord)
      ensures Snapshot() == r
    {
      id, slotNumber, available, isDisabled := r.id, r.slotNumber, r.available, r.isDisabled;
      maintenanceNotes, slotType, locationId := r.maintenanceNotes, r.slotType, r.locationId;
    }

    method SetId(v: Option<int>)
      modifies this
      ensures Snapshot() == old(Snapshot()).(id := v)
    {
      id := v;
    }

    method SetSlotNumber(v: Option<string>)
      modifies this
      ensures Snapshot() == old(Snapshot()).(slotNumber := v)
    {
      slotNumber := v;
    }

    method SetAvailable(v: bool)
      modifies this
      ensures Snapshot() == old(Snapshot()).(available := v)
    {
      available := v;
    }

    method SetDisabled(v: bool)
      modifies this
      ensures Snapshot() == old(Snapshot()).(isDisabled := v)
    {
      isDisabled := v;
    }

    method SetMaintenanceNotes(v: Option<string>)
      modifies this
      ensures Snapshot() == old(Snapshot()).(maintenanceNotes := v)
    {
      maintenanceNotes := v;
    }

    method SetLocation(v: Option<int>)
      modifies this
      ensures Snapshot() == old(Snapshot()).(locationId := v)
    {
      locationId := v;
    }

    /** `setSlotType(v)` never stores null: null becomes "CAR". */
    method SetSlotType(v: Option<string>)
      modifies this
      ensures Snapshot() == old(Snapshot()).(slotType := Some(StoredSlotType(v)))
    {
      slotType := Some(if v.None? then "CAR" else v.value);
    }
  }
}
