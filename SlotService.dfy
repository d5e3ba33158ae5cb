/** Slot administration: adding and editing slots, flipping their availability, putting
    them into and out of maintenance, deleting them, and the availability filters and
    counts per location. Each change loads the slot, edits it through its setters and
    saves it; the service is not transactional, but every change saves once, at its end.
    A slot is bookable when it is available and not disabled: occupancy (`available`)
    and maintenance (`isDisabled`) are separate flags. */
module SlotService {
  import opened Common
  import opened Entities
  import opened Stores

  /** The JSON body of an add or update request. */
  datatype SlotRequest = SlotRequest(slotNumber: Option<string>, locationId: Option<int>, available: Option<bool>, slotType: Option<string>)

  datatype SlotError =
    | LocationNotFound(locationId: Option<int>)
    | SlotNotFound(id: int)
    | SlotWithoutLocation
    | SlotNumberMissing

  // ------------------------------------------------------------------
  // Filters and counts
  // ------------------------------------------------------------------

  predicate IsBookable(s: SlotRecord)
  {
    s.available && !s.isDisabled
  }

  predicate IsDisabled(s: SlotRecord)
  {
    s.isDisabled
  }

  function AtLocation(locationId: int): SlotRecord -> bool
  {
    (s: SlotRecord) => s.locationId == Some(locationId)
  }

  /** `slotRepository.findByLocationId(locationId)`. */
  function SlotsByLocation(t: Tables, locationId: int): (r: seq<SlotRecord>)
    ensures forall i :: 0 <= i < |r| ==> r[i] in t.slots && r[i].locationId == Some(locationId)
    ensures forall i :: 0 <= i < |t.slots| && t.slots[i].locationId == Some(locationId) ==> t.slots[i] in r
  {
    Filter(t.slots, AtLocation(locationId))
  }

  /** `getAvailableSlots()`: the bookable slots, in storage order. */
  function AvailableSlots(t: Tables): (r: seq<SlotRecord>)
    ensures forall i :: 0 <= i < |r| ==> r[i] in t.slots && r[i].available && !r[i].isDisabled
    ensures forall i :: 0 <= i < |t.slots| && t.slots[i].available && !t.slots[i].isDisabled ==> t.slots[i] in r
  {
    Filter(t.slots, IsBookable)
  }

  /** `getAvailableSlotsByLocation(locationId)`. */
  function AvailableSlotsByLocation(t: Tables, locationId: int): (r: seq<SlotRecord>)
    ensures forall i :: 0 <= i < |r| ==> r[i] in t.slots && r[i].locationId == Some(locationId) && IsBookable(r[i])
    ensures forall i :: 0 <= i < |t.slots| && t.slots[i].locationId == Some(locationId) && IsBookable(t.slots[i])
              ==> t.slots[i] in r
  {
    Filter(SlotsByLocation(t, locationId), IsBookable)
  }

  function SlotCountByLocation(t: Tables, locationId: int): nat
  {
    |SlotsByLocation(t, locationId)|
  }

  function AvailableSlotCountByLocation(t: Tables, locationId: int): nat
  {
    Count(SlotsByLocation(t, locationId), IsBookable)
  }

  function DisabledSlotCountByLocation(t: Tables, locationId: int): nat
  {
    Count(SlotsByLocation(t, locationId), IsDisabled)
  }

  /** A slot under maintenance is never counted as available, so at any location the
      available and the disabled slots together are at most all its slots. */
  lemma AvailableAndDisabledWithinTotal(t: Tables, locationId: int)
    ensures AvailableSlotCountByLocation(t, locationId) + DisabledSlotCountByLocation(t, locationId)
            <= SlotCountByLocation(t, locationId)
    ensures AvailableSlotCountByLocation(t, locationId) == |AvailableSlotsByLocation(t, locationId)|
  {
    CountDisjoint(SlotsByLocation(t, locationId), IsBookable, IsDisabled);
  }

  // ------------------------------------------------------------------
  // addSlot, updateSlot
  // ------------------------------------------------------------------

  /** The slot `addSlot` builds: a new slot (type CAR, not disabled) with the requested
      number and location, available unless the request says otherwise. */
  function NewSlotFor(req: SlotRequest): SlotRecord
  {
    NewSlotRecord().(slotNumber := req.slotNumber, locationId := req.locationId,
                     available := if req.available.Some? then req.available.value else true)
  }

  /** `addSlot(request)`: the saved slot, the missing location, or a missing slot number,
      which the not-null `slotNumber` column refuses when the slot is saved. */
  function AddSlotSpec(t: Tables, req: SlotRequest): (Result<SlotRecord, SlotError>, Tables)
  {
    if req.locationId.None? || req.locationId.value !in t.locations then (Err(LocationNotFound(req.locationId)), t)
    else if req.slotNumber.None? then (Err(SlotNumberMissing), t)
    else
      var (t', row) := SaveSlotRow(t, NewSlotFor(req));
      (Ok(row), t')
  }

  method AddSlot(store: ParkingStore, req: SlotRequest) returns (r: Result<SlotRecord, SlotError>)
    requires store.Valid()
    modifies store
    ensures store.Valid()
    ensures (r, store.State()) == AddSlotSpec(old(store.State()), req)
  {
    if req.locationId.None? || req.locationId.value !in store.locations {
      return Err(LocationNotFound(req.locationId));
    }
    var slot := new Slot();
    slot.SetSlotNumber(req.slotNumber);
    slot.SetLocation(req.locationId);
    var finalAvailable := if req.available.Some? then req.available.value else true;
    slot.SetAvailable(finalAvailable);
    if req.slotNumber.None? {
      return Err(SlotNumberMissing);
    }
    SaveSlotRowFound(store.State(), slot.Snapshot());
    store.SaveSlot(slot);
    r := Ok(slot.Snapshot());
  }

  /** A slot is added exactly when its location exists and it has a number; a missing
      location is reported first. It is appended under a fresh id,
      with the requested number and location, type CAR whatever the request says, not
      disabled, and available unless the request says false. */
  lemma AddSlotAppends(t: Tables, req: SlotRequest)
    requires ValidTables(t)
    ensures var (r, t') := AddSlotSpec(t, req);
      (r.Ok? <==> req.locationId.Some? && req.locationId.value in t.locations && req.slotNumber.Some?) &&
      (req.locationId.Some? && req.locationId.value in t.locations && req.slotNumber.None? ==> r == Err(SlotNumberMissing)) &&
      (r.Err? ==> t' == t) &&
      (r.Ok? ==>
        r.value.id == Some(t.nextSlotId) && t'.slots == t.slots + [r.value] && t'.bookings == t.bookings &&
        r.value.slotNumber == req.slotNumber && r.value.locationId == req.locationId &&
        r.value.slotType == Some("CAR") && !r.value.isDisabled &&
        (r.value.available <==> req.available != Some(false)))
  {
    if req.locationId.Some? && req.locationId.value in t.locations && req.slotNumber.Some? {
      assert SlotIndex(t, NewSlotFor(req).id).None?;
    }
  }

  /** `updateSlot(id, request)`: moves the slot to another existing location, renames it and
      retypes it, each only when the request gives a non-empty value. A slot without a
      location cannot be moved (the comparison with its location's id throws). */
  function UpdateSlotSpec(t: Tables, id: int, req: SlotRequest): (Result<SlotRecord, SlotError>, Tables)
  {
    match LookupSlot(t, Some(id))
    case None => (Err(SlotNotFound(id)), t)
    case Some(s) =>
      if req.locationId.Some? && s.locationId.None? then (Err(SlotWithoutLocation), t)
      else if req.locationId.Some? && req.locationId != s.locationId && req.locationId.value !in t.locations then
        (Err(LocationNotFound(req.locationId)), t)
      else
        var (t', row) := SaveSlotRow(t, EditSlot(s, req));
        (Ok(row), t')
  }

  /** The slot with the request's changes applied: a new location, and a number or type
      that is neither null nor empty. */
  function EditSlot(s: SlotRecord, req: SlotRequest): (e: SlotRecord)
    ensures e.id == s.id && e.available == s.available && e.isDisabled == s.isDisabled
    ensures e.maintenanceNotes == s.maintenanceNotes
    ensures e.locationId == (if req.locationId.Some? then req.locationId else s.locationId)
    ensures e.slotNumber == (if req.slotNumber.Some? && req.slotNumber.value != "" then req.slotNumber else s.slotNumber)
    ensures e.slotType == (if req.slotType.Some? && req.slotType.value != "" then req.slotType else s.slotType)
  {
    var s1 := if req.locationId.Some? && req.locationId != s.locationId then s.(locationId := req.locationId) else s;
    var s2 := if req.slotNumber.Some? && req.slotNumber.value != "" then s1.(slotNumber := req.slotNumber) else s1;
    if req.slotType.Some? && req.slotType.value != "" then s2.(slotType := req.slotType) else s2
  }

  method UpdateSlot(store: ParkingStore, id: int, req: SlotRequest) returns (r: Result<SlotRecord, SlotError>)
    requires store.Valid()
    modifies store
    ensures store.Valid()
    ensures (r, store.State()) == UpdateSlotSpec(old(store.State()), id, req)
  {
    var slot := store.FindSlot(Some(id));
    if slot == null {
      return Err(SlotNotFound(id));
    }
    ghost var s0 := slot.Snapshot();
    if req.locationId.Some? {
      if slot.locationId.None? {
        return Err(SlotWithoutLocation);
      }
      if req.locationId != slot.locationId {
        if req.locationId.value !in store.locations {
          return Err(LocationNotFound(req.locationId));
        }
        slot.SetLocation(req.locationId);
      }
    }
    ghost var s1 := slot.Snapshot();
    assert s1 == if req.locationId.Some? && req.locationId != s0.locationId then s0.(locationId := req.locationId) else s0;
    ApplyTextEdits(slot, req);
    ghost var t := store.State();
    ghost var s3 := slot.Snapshot();
    assert s3 == EditSlot(s0, req);
    assert UpdateSlotSpec(t, id, req) == (Ok(SaveSlotRow(t, s3).1), SaveSlotRow(t, s3).0);
    SaveSlotRowFound(t, s3);
    store.SaveSlot(slot);
    r := Ok(slot.Snapshot());
  }

  /** Sets the number and the type the request gives, when neither null nor empty. */
  method ApplyTextEdits(slot: Slot, req: SlotRequest)
    modifies slot
    ensures var s1 := old(slot.Snapshot());
      var s2 := if req.slotNumber.Some? && req.slotNumber.value != "" then s1.(slotNumber := req.slotNumber) else s1;
      slot.Snapshot() == if req.slotType.Some? && req.slotType.value != "" then s2.(slotType := req.slotType) else s2
  {
    if req.slotNumber.Some? && req.slotNumber.value != "" {
      slot.SetSlotNumber(req.slotNumber);
    }
    if req.slotType.Some? && req.slotType.value != "" {
      slot.SetSlotType(req.slotType);
    }
  }

  /** An update keeps the slot's id, availability, maintenance state and notes; a null or
      empty number or type keeps the old one, and a location is only looked up when it
      differs from the current one. */
  lemma UpdateSlotKeepsState(t: Tables, id: int, req: SlotRequest)
    requires ValidTables(t)
    requires LookupSlot(t, Some(id)).Some?
    ensures var s := LookupSlot(t, Some(id)).value;
      var (r, t') := UpdateSlotSpec(t, id, req);
      (r.Err? ==> t' == t) &&
      (r.Ok? ==>
        LookupSlot(t', Some(id)) == Some(r.value) && t'.bookings == t.bookings &&
        r.value.id == s.id && r.value.available == s.available && r.value.isDisabled == s.isDisabled &&
        r.value.maintenanceNotes == s.maintenanceNotes &&
        r.value.slotNumber == (if req.slotNumber.Some? && req.slotNumber.value != "" then req.slotNumber else s.slotNumber) &&
        r.value.slotType == (if req.slotType.Some? && req.slotType.value != "" then req.slotType else s.slotType) &&
        r.value.locationId == (if req.locationId.Some? then req.locationId else s.locationId)) &&
      (req.locationId.Some? && req.locationId == s.locationId ==> r.Ok?)
  {
    var (r, t') := UpdateSlotSpec(t, id, req);
    if r.Ok? {
      SaveSlotRowFound(t, EditSlot(LookupSlot(t, Some(id)).value, req));
    }
  }

  // ------------------------------------------------------------------
  // Availability and maintenance
  // ------------------------------------------------------------------

  /** Saves `s'`, the edited version of a slot that was found: the common end of every edit below. */
  function SaveEdited(t: Tables, s': SlotRecord): (Result<SlotRecord, SlotError>, Tables)
  {
    var (t', row) := SaveSlotRow(t, s');
    (Ok(row), t')
  }

  /** `toggleSlotAvailability(id)`. */
  function ToggleSpec(t: Tables, id: int): (Result<SlotRecord, SlotError>, Tables)
  {
    match LookupSlot(t, Some(id))
    case None => (Err(SlotNotFound(id)), t)
    case Some(s) => SaveEdited(t, s.(available := !s.available))
  }

  /** `setSlotAvailability(id, available)`. */
  function SetAvailabilitySpec(t: Tables, id: int, available: bool): (Result<SlotRecord, SlotError>, Tables)
  {
    match LookupSlot(t, Some(id))
    case None => (Err(SlotNotFound(id)), t)
    case Some(s) => SaveEdited(t, s.(available := available))
  }

  /** `disableSlot(id, notes)`. */
  function DisableSpec(t: Tables, id: int, notes: Option<string>): (Result<SlotRecord, SlotError>, Tables)
  {
    match LookupSlot(t, Some(id))
    case None => (Err(SlotNotFound(id)), t)
    case Some(s) => SaveEdited(t, s.(isDisabled := true, maintenanceNotes := notes))
  }

  /** `enableSlot(id)`. */
  function EnableSpec(t: Tables, id: int): (Result<SlotRecord, SlotError>, Tables)
  {
    match LookupSlot(t, Some(id))
    case None => (Err(SlotNotFound(id)), t)
    case Some(s) => SaveEdited(t, s.(isDisabled := false, maintenanceNotes := None))
  }

  /** `updateMaintenanceNotes(id, notes)`. */
  function UpdateNotesSpec(t: Tables, id: int, notes: Option<string>): (Result<SlotRecord, SlotError>, Tables)
  {
    match LookupSlot(t, Some(id))
    case None => (Err(SlotNotFound(id)), t)
    case Some(s) => SaveEdited(t, s.(maintenanceNotes := notes))
  }

  method ToggleSlotAvailability(store: ParkingStore, id: int) returns (r: Result<SlotRecord, SlotError>)
    requires store.Valid()
    modifies store
    ensures store.Valid()
    ensures (r, store.State()) == ToggleSpec(old(store.State()), id)
  {
    var slot := store.FindSlot(Some(id));
    if slot == null {
      return Err(SlotNotFound(id));
    }
    slot.SetAvailable(!slot.available);
    SaveSlotRowFound(store.State(), slot.Snapshot());
    store.SaveSlot(slot);
    r := Ok(slot.Snapshot());
  }

  method SetSlotAvailability(store: ParkingStore, id: int, available: bool) returns (r: Result<SlotRecord, SlotError>)
    requires store.Valid()
    modifies store
    ensures store.Valid()
    ensures (r, store.State()) == SetAvailabilitySpec(old(store.State()), id, available)
  {
    var slot := store.FindSlot(Some(id));
    if slot == null {
      return Err(SlotNotFound(id));
    }
    slot.SetAvailable(available);
    SaveSlotRowFound(store.State(), slot.Snapshot());
    store.SaveSlot(slot);
    r := Ok(slot.Snapshot());
  }

  method DisableSlot(store: ParkingStore, id: int, notes: Option<string>) returns (r: Result<SlotRecord, SlotError>)
    requires store.Valid()
    modifies store
    ensures store.Valid()
    ensures (r, store.State()) == DisableSpec(old(store.State()), id, notes)
  {
    var slot := store.FindSlot(Some(id));
    if slot == null {
      return Err(SlotNotFound(id));
    }
    slot.SetDisabled(true);
    slot.SetMaintenanceNotes(notes);
    SaveSlotRowFound(store.State(), slot.Snapshot());
    store.SaveSlot(slot);
    r := Ok(slot.Snapshot());
  }

  method EnableSlot(store: ParkingStore, id: int) returns (r: Result<SlotRecord, SlotError>)
    requires store.Valid()
    modifies store
    ensures store.Valid()
    ensures (r, store.State()) == EnableSpec(old(store.State()), id)
  {
    var slot := store.FindSlot(Some(id));
    if slot == null {
      return Err(SlotNotFound(id));
    }
    slot.SetDisabled(false);
    slot.SetMaintenanceNotes(None);
    SaveSlotRowFound(store.State(), slot.Snapshot());
    store.SaveSlot(slot);
    r := Ok(slot.Snapshot());
  }

  method UpdateMaintenanceNotes(store: ParkingStore, id: int, notes: Option<string>) returns (r: Result<SlotRecord, SlotError>)
    requires store.Valid()
    modifies store
    ensures store.Valid()
    ensures (r, store.State()) == UpdateNotesSpec(old(store.State()), id, notes)
  {
    var slot := store.FindSlot(Some(id));
    if slot == null {
      return Err(SlotNotFound(id));
    }
    slot.SetMaintenanceNotes(notes);
    SaveSlotRowFound(store.State(), slot.Snapshot());
    store.SaveSlot(slot);
    r := Ok(slot.Snapshot());
  }

  /** Saving an edit of a found slot writes it over that slot's row, in place. */
  lemma SaveEditedInPlace(t: Tables, s': SlotRecord)
    requires SlotIndex(t, s'.id).Some?
    ensures var i := SlotIndex(t, s'.id).value;
      SaveEdited(t, s') == (Ok(s'), t.(slots := t.slots[i := s'])) &&
      SlotIndex(SaveEdited(t, s').1, s'.id) == Some(i)
  {
    var i := SlotIndex(t, s'.id).value;
    FirstIndexIs(t.slots[i := s'], SlotWithId(s'.id.value), i);
  }

  /** Toggling changes nothing but the availability flag, and toggling twice restores the
      tables exactly. */
  lemma ToggleTwiceRestores(t: Tables, id: int)
    requires LookupSlot(t, Some(id)).Some?
    ensures var s := LookupSlot(t, Some(id)).value;
      var (r, t1) := ToggleSpec(t, id);
      r == Ok(s.(available := !s.available)) && t1.bookings == t.bookings &&
      ToggleSpec(t1, id).1 == t
  {
    var s := LookupSlot(t, Some(id)).value;
    var i := SlotIndex(t, Some(id)).value;
    SaveEditedInPlace(t, s.(available := !s.available));
    var t1 := ToggleSpec(t, id).1;
    SaveEditedInPlace(t1, s);
    assert t1.slots[i := s] == t.slots;
  }

  /** Maintenance is independent of occupancy: disabling stores the notes and enabling clears
      them, each setting only the disabled flag besides, so `available` is what it was; a
      slot disabled and then enabled is back to its old state with its notes cleared. */
  lemma MaintenanceKeepsAvailability(t: Tables, id: int, notes: Option<string>)
    requires LookupSlot(t, Some(id)).Some?
    ensures var s := LookupSlot(t, Some(id)).value;
      DisableSpec(t, id, notes).0 == Ok(s.(isDisabled := true, maintenanceNotes := notes)) &&
      EnableSpec(t, id).0 == Ok(s.(isDisabled := false, maintenanceNotes := None)) &&
      EnableSpec(DisableSpec(t, id, notes).1, id).1 == SaveEdited(t, s.(isDisabled := false, maintenanceNotes := None)).1
  {
    var s := LookupSlot(t, Some(id)).value;
    var i := SlotIndex(t, Some(id)).value;
    SaveEditedInPlace(t, s.(isDisabled := true, maintenanceNotes := notes));
    SaveEditedInPlace(t, s.(isDisabled := false, maintenanceNotes := None));
    var t1 := DisableSpec(t, id, notes).1;
    SaveEditedInPlace(t1, s.(isDisabled := false, maintenanceNotes := None));
    assert t1.slots[i := s.(isDisabled := false, maintenanceNotes := None)] == t.slots[i := s.(isDisabled := false, maintenanceNotes := None)];
  }

  /** A slot that cannot be found is reported and nothing changes, whatever the edit. */
  lemma EditsOfMissingSlotFail(t: Tables, id: int, available: bool, notes: Option<string>)
    requires LookupSlot(t, Some(id)).None?
    ensures ToggleSpec(t, id) == (Err(SlotNotFound(id)), t)
    ensures SetAvailabilitySpec(t, id, available) == (Err(SlotNotFound(id)), t)
    ensures DisableSpec(t, id, notes) == (Err(SlotNotFound(id)), t)
    ensures EnableSpec(t, id) == (Err(SlotNotFound(id)), t)
    ensures UpdateNotesSpec(t, id, notes) == (Err(SlotNotFound(id)), t)
    ensures DeleteSlotSpec(t, id) == (Err(SlotNotFound(id)), t)
  {
  }

  // ------------------------------------------------------------------
  // deleteSlot
  // ------------------------------------------------------------------

  /** `deleteSlot(id)`: the id must exist. */
  function DeleteSlotSpec(t: Tables, id: int): (Result<(), SlotError>, Tables)
  {
    if SlotIndex(t, Some(id)).None? then (Err(SlotNotFound(id)), t)
    else (Ok(()), DeleteSlotRow(t, id))
  }

  method DeleteSlot(store: ParkingStore, id: int) returns (r: Result<(), SlotError>)
    requires store.Valid()
    modifies store
    ensures store.Valid()
    ensures (r, store.State()) == DeleteSlotSpec(old(store.State()), id)
  {
    if SlotIndex(store.State(), Some(id)).None? {
      return Err(SlotNotFound(id));
    }
    store.DeleteSlot(id);
    r := Ok(());
  }

  /** Deleting an existing slot removes exactly one row, the first one with that id, and
      keeps the others in order. */
  lemma DeleteSlotRemovesOne(t: Tables, id: int)
    ensures var (r, t') := DeleteSlotSpec(t, id);
      (r.Ok? <==> exists i :: 0 <= i < |t.slots| && t.slots[i].id == Some(id)) &&
      (r.Ok? ==> |t'.slots| == |t.slots| - 1 && t'.bookings == t.bookings &&
                 var i := SlotIndex(t, Some(id)).value;
                 (forall j :: 0 <= j < i ==> t'.slots[j] == t.slots[j]) &&
                 (forall j :: i <= j < |t'.slots| ==> t'.slots[j] == t.slots[j + 1]))
  {
  }
}
