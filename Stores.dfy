/** The persistent state the services share: the `slots` and `bookings` tables as rows in
    storage order, with the next identity value of each, and the read-only tables the
    services consult (users, their registered vehicles, locations and their names). `ParkingStore` is the
    JPA repository layer: `findById` hands out a fresh managed object holding a row, and
    `save` writes an object's fields back, inserting it with a new identity when it has
    no id or its id is not stored. */
module Stores {
  import opened Common
  import opened Entities

  /** A user account as the services read it: its id, name and e-mail, and the free-text
      profile vehicle type. */
  datatype UserRecord = UserRecord(id: int, name: Option<string>, email: Option<string>, vehicleType: Option<string>)

  /** A registered vehicle of a user. */
  datatype VehicleRecord = VehicleRecord(userId: int, vehicleType: Option<VehicleType>, isDefault: Option<bool>)

  datatype Tables = Tables(
    slots: seq<SlotRecord>,
    bookings: seq<BookingRecord>,
    nextSlotId: int,
    nextBookingId: int,
    users: map<int, UserRecord>,
    vehicles: seq<VehicleRecord>,
    locations: map<int, Option<string>>)

  /** Every stored row carries an id below its table's next identity value. */
  predicate ValidTables(t: Tables)
  {
    (forall i :: 0 <= i < |t.slots| ==> t.slots[i].id.Some? && t.slots[i].id.value < t.nextSlotId) &&
    (forall i :: 0 <= i < |t.bookings| ==> t.bookings[i].id.Some? && t.bookings[i].id.value < t.nextBookingId)
  }

  function SlotWithId(id: int): SlotRecord -> bool
  {
    (s: SlotRecord) => s.id == Some(id)
  }

  function BookingWithId(id: int): BookingRecord -> bool
  {
    (b: BookingRecord) => b.id == Some(id)
  }

  /** Where `findById(id)` finds its row; a null id finds nothing. */
  function SlotIndex(t: Tables, id: Option<int>): (r: Option<nat>)
    ensures r.Some? ==> id.Some? && r.value < |t.slots| && t.slots[r.value].id == id
    ensures r.None? && id.Some? ==> forall i :: 0 <= i < |t.slots| ==> t.slots[i].id != id
  {
    if id.None? then None else FirstIndex(t.slots, SlotWithId(id.value))
  }

  function BookingIndex(t: Tables, id: Option<int>): (r: Option<nat>)
    ensures r.Some? ==> id.Some? && r.value < |t.bookings| && t.bookings[r.value].id == id
    ensures r.None? && id.Some? ==> forall i :: 0 <= i < |t.bookings| ==> t.bookings[i].id != id
  {
    if id.None? then None else FirstIndex(t.bookings, BookingWithId(id.value))
  }

  /** `slotRepo.findById(id)` as a value. */
  function LookupSlot(t: Tables, id: Option<int>): (r: Option<SlotRecord>)
    ensures r.Some? <==> SlotIndex(t, id).Some?
    ensures r.Some? ==> r.value in t.slots && r.value.id == id
  {
    match SlotIndex(t, id)
    case None => None
    case Some(i) => Some(t.slots[i])
  }

  /** `bookingRepo.findById(id)` as a value. */
  function LookupBooking(t: Tables, id: Option<int>): (r: Option<BookingRecord>)
    ensures r.Some? <==> BookingIndex(t, id).Some?
    ensures r.Some? ==> r.value in t.bookings && r.value.id == id
  {
    match BookingIndex(t, id)
    case None => None
    case Some(i) => Some(t.bookings[i])
  }

  /** `slotRepo.save(slot)`: the new tables and the row as stored. A stored id is
      overwritten in place; otherwise the row is appended with the next identity. */
  function SaveSlotRow(t: Tables, r: SlotRecord): (Tables, SlotRecord)
  {
    match SlotIndex(t, r.id)
    case Some(i) => (t.(slots := t.slots[i := r]), r)
    case None =>
      var row := r.(id := Some(t.nextSlotId));
      (t.(slots := t.slots + [row], nextSlotId := t.nextSlotId + 1), row)
  }

  /** `bookingRepo.save(booking)`, in the same way as `SaveSlotRow`. */
  function SaveBookingRow(t: Tables, r: BookingRecord): (Tables, BookingRecord)
  {
    match BookingIndex(t, r.id)
    case Some(i) => (t.(bookings := t.bookings[i := r]), r)
    case None =>
      var row := r.(id := Some(t.nextBookingId));
      (t.(bookings := t.bookings + [row], nextBookingId := t.nextBookingId + 1), row)
  }

  /** `slotRepo.deleteById(id)`: drops the row with that id. */
  function DeleteSlotRow(t: Tables, id: int): Tables
  {
    match SlotIndex(t, Some(id))
    case None => t
    case Some(i) => t.(slots := t.slots[..i] + t.slots[i + 1..])
  }

  /** Saving keeps the tables valid, and the saved row is what `findById` then returns;
      every other row and table is left as it was. */
  lemma SaveSlotRowFound(t: Tables, r: SlotRecord)
    requires ValidTables(t)
    ensures ValidTables(SaveSlotRow(t, r).0)
    ensures LookupSlot(SaveSlotRow(t, r).0, SaveSlotRow(t, r).1.id) == Some(SaveSlotRow(t, r).1)
    ensures SaveSlotRow(t, r).1 == r.(id := SaveSlotRow(t, r).1.id)
    ensures SaveSlotRow(t, r).0.bookings == t.bookings
  {
    var (t', row) := SaveSlotRow(t, r);
    match SlotIndex(t, r.id)
    case Some(i) =>
      FirstIndexIs(t'.slots, SlotWithId(r.id.value), i);
    case None =>
      FirstIndexIs(t'.slots, SlotWithId(t.nextSlotId), |t.slots|);
  }

  lemma SaveBookingRowFound(t: Tables, r: BookingRecord)
    requires ValidTables(t)
    ensures ValidTables(SaveBookingRow(t, r).0)
    ensures LookupBooking(SaveBookingRow(t, r).0, SaveBookingRow(t, r).1.id) == Some(SaveBookingRow(t, r).1)
    ensures SaveBookingRow(t, r).1 == r.(id := SaveBookingRow(t, r).1.id)
    ensures SaveBookingRow(t, r).0.slots == t.slots
  {
    var (t', row) := SaveBookingRow(t, r);
    match BookingIndex(t, r.id)
    case Some(i) =>
      FirstIndexIs(t'.bookings, BookingWithId(r.id.value), i);
    case None =>
      FirstIndexIs(t'.bookings, BookingWithId(t.nextBookingId), |t.bookings|);
  }

  /** Every booking id other than `id` finds the same row in `t'` as in `t`. */
  ghost predicate BookingsAgreeExcept(t: Tables, t': Tables, id: Option<int>)
  {
    forall y :: Some(y) != id ==> LookupBooking(t', Some(y)) == LookupBooking(t, Some(y))
  }

  /** Every slot id other than `id` finds the same row in `t'` as in `t`. */
  ghost predicate SlotsAgreeExcept(t: Tables, t': Tables, id: Option<int>)
  {
    forall y :: Some(y) != id ==> LookupSlot(t', Some(y)) == LookupSlot(t, Some(y))
  }

  /** Saving a booking changes what `findById` finds for its own id only, and no slot. */
  lemma SaveBookingRowKeepsOthers(t: Tables, r: BookingRecord)
    ensures BookingsAgreeExcept(t, SaveBookingRow(t, r).0, SaveBookingRow(t, r).1.id)
    ensures SlotsAgreeExcept(t, SaveBookingRow(t, r).0, None)
  {
    var (t', row) := SaveBookingRow(t, r);
    forall y | Some(y) != row.id
      ensures LookupBooking(t', Some(y)) == LookupBooking(t, Some(y))
    {
      var p := BookingWithId(y);
      assert forall i :: 0 <= i < |t.bookings| ==> p(t'.bookings[i]) == p(t.bookings[i]) && (p(t.bookings[i]) ==> t'.bookings[i] == t.bookings[i]);
      FirstIndexAgrees(t.bookings, t'.bookings, p);
    }
  }

  /** Saving a slot changes what `findById` finds for its own id only, and no booking. */
  lemma SaveSlotRowKeepsOthers(t: Tables, r: SlotRecord)
    ensures SlotsAgreeExcept(t, SaveSlotRow(t, r).0, SaveSlotRow(t, r).1.id)
    ensures BookingsAgreeExcept(t, SaveSlotRow(t, r).0, None)
  {
    var (t', row) := SaveSlotRow(t, r);
    forall y | Some(y) != row.id
      ensures LookupSlot(t', Some(y)) == LookupSlot(t, Some(y))
    {
      var p := SlotWithId(y);
      assert forall i :: 0 <= i < |t.slots| ==> p(t'.slots[i]) == p(t.slots[i]) && (p(t.slots[i]) ==> t'.slots[i] == t.slots[i]);
      FirstIndexAgrees(t.slots, t'.slots, p);
    }
  }

  /** The repositories over the shared tables. */
  class ParkingStore {
    var slots: seq<SlotRecord>
    var bookings: seq<BookingRecord>
    var nextSlotId: int
    var nextBookingId: int
    var users: map<int, UserRecord>
    var vehicles: seq<VehicleRecord>
    var locations: map<int, Option<string>>

    function State(): Tables
      reads this
    {
      Tables(slots, bookings, nextSlotId, nextBookingId, users, vehicles, locations)
    }

    predicate Valid()
      reads this
    {
      ValidTables(State())
    }

    /** Empty slot and booking tables over the given users, vehicles and locations. */
    constructor (users: map<int, UserRecord>, vehicles: seq<VehicleRecord>, locations: map<int, Option<string>>)
      ensures State() == Tables([], [], 1, 1, users, vehicles, locations)
      ensures Valid()
    {
      this.slots, this.bookings, this.nextSlotId, this.nextBookingId := [], [], 1, 1;
      this.users, this.vehicles, this.locations := users, vehicles, locations;
    }

    /** `slotRepo.findById(id)`: a fresh managed object holding the stored row, or null. */
    method FindSlot(id: Option<int>) returns (s: Slot?)
      ensures s == null <==> LookupSlot(State(), id).None?
      ensures s != null ==> fresh(s) && s.Snapshot() == LookupSlot(State(), id).value
    {
      var row := LookupSlot(State(), id);
      if row.None? {
        s := null;
      } else {
        s := new Slot.Load(row.value);
      }
    }

    /** `bookingRepo.findById(id)`: a fresh managed object holding the stored row, or null. */
    method FindBooking(id: Option<int>) returns (b: Booking?)
      ensures b == null <==> LookupBooking(State(), id).None?
      ensures b != null ==> fresh(b) && b.Snapshot() == LookupBooking(State(), id).value
    {
      var row := LookupBooking(State(), id);
      if row.None? {
        b := null;
      } else {
        b := new Booking.Load(row.value);
      }
    }

    /** `slotRepo.save(slot)`: writes the object's fields; a new row's identity is set on the object. */
    method SaveSlot(s: Slot)
      modifies this, s
      ensures State() == SaveSlotRow(old(State()), old(s.Snapshot())).0
      ensures s.Snapshot() == SaveSlotRow(old(State()), old(s.Snapshot())).1
    {
      var (t, row) := SaveSlotRow(State(), s.Snapshot());
      slots, nextSlotId := t.slots, t.nextSlotId;
      s.SetId(row.id);
    }

    /** `bookingRepo.save(booking)`: writes the object's fields; a new row's identity is set on the object. */
    method SaveBooking(b: Booking)
      modifies this, b
      ensures State() == SaveBookingRow(old(State()), old(b.Snapshot())).0
      ensures b.Snapshot() == SaveBookingRow(old(State()), old(b.Snapshot())).1
    {
      var (t, row) := SaveBookingRow(State(), b.Snapshot());
      bookings, nextBookingId := t.bookings, t.nextBookingId;
      b.SetId(row.id);
    }

    /** `slotRepo.deleteById(id)`. */
    method DeleteSlot(id: int)
      modifies this
      ensures State() == DeleteSlotRow(old(State()), id)
    {
      slots := DeleteSlotRow(State(), id).slots;
    }
  }
}
