# Smart parking backend — Dafny model

This project models the core of a smart-parking backend: parking slots grouped into
locations, and bookings that move through a reserve → checkout → pay → complete
lifecycle. A booking can also be cancelled, and a repair routine clears the exit time
checkout left on an unpaid booking. Around that lifecycle sit the reports computed over
the same two tables: the summary report, duration metrics, peak hours, the CSV export,
user segmentation, the weekly occupancy heatmap, and the per-location occupancy
statistics with their time series. The map endpoints add a location search, slot
layouts by zone, and the bounding box of the locations.

Each module follows one source file:

- `Entities`: the `Booking` and `Slot` entities as classes with one setter per field.
  `Snapshot()` gives the value of all fields as a record (`BookingRecord`,
  `SlotRecord`).
- `Repository`: the booking queries as functions over the rows of the bookings table.
- `Stores`: the shared state `Tables`, with the slots and bookings rows in storage
  order, the next identity value of each table, and the read-only users, vehicles and
  locations. `ParkingStore` is the repository layer over it: `findById` hands out a
  fresh managed object, and `save` writes one back.
- `BookingService`, `SlotService` and `PaymentController`: each state-changing operation
  is specified twice.
  - A function `XSpec(t, ...)` returns the result and the new tables.
  - A method on the store runs the operation through the entity setters and saves. It
    is proved to produce exactly what the function describes.
  - Lemmas about the spec functions carry the properties: rejection order, frame
    conditions, round trips and interactions between operations.
  - A `@Transactional` operation that throws leaves the tables as they were. The payment
    endpoint is not transactional: its fee correction is saved before the gateway is
    called.
- `PaymentService`: the simulated gateway and the transaction id format.
- `BookingController`: the ownership gates of the booking endpoints, and the batch
  repair loop.
- `ReportService`, `OccupancyStatistics` and `MapController`: functions over the tables.
  The loops of the source (the CSV builder, the heatmap, the hourly and the calendar
  buckets) are methods proved equal to those functions.

Conventions:

- Times are whole minutes. Minute 0 is a Monday at 00:00, which fixes the hour of day
  and the day of week.
- Money is `real`, so arithmetic is exact.
- A Java `null` is `None`.
- The clock (`now`), the random draw of the payment gateway and the UUID text are
  parameters of the operations that use them. So are the fee calculator, the parsing of
  a vehicle type name, and the date and number formatting of the CSV export.

Where the two disagree, the model follows the code. In particular:

- A payment is accepted for a booking in any status.
- `findCurrentBookingsByUserId` lists ACTIVE bookings that already have an exit time,
  but `countCurrentBookingsByUserId` does not count them.
- The repair treats exactly the state checkout leaves (ACTIVE with an exit time) as
  corrupted.
- `bookSlot` saves the request as it came. A request that carries the id of a stored
  booking therefore replaces that booking (the repository's `save` merges); only a
  request without a stored id gets a new one.

## Model

| member | source | states |
|---|---|---|
| Entities.NewBookingRecord | Backend/src/main/java/com/smartparking/model/Booking.java:27-44 | a new booking has status ACTIVE and every other field null |
| Entities.Booking.constructor | Backend/src/main/java/com/smartparking/model/Booking.java:44 | `new Booking()` holds the default record |
| Entities.Booking.WithEntry | Backend/src/main/java/com/smartparking/model/Booking.java:46-51 | the three-argument constructor sets userId, slotId and entryTime, status ACTIVE, all else null |
| Entities.Booking.Load | Backend/src/main/java/com/smartparking/repository/BookingRepository.java:17 | a managed object loaded from a row holds exactly that row |
| Entities.Booking.SetId | Backend/src/main/java/com/smartparking/model/Booking.java:58 | writes the id and nothing else |
| Entities.Booking.SetUserId | Backend/src/main/java/com/smartparking/model/Booking.java:66 | writes the user id and nothing else |
| Entities.Booking.SetVehicleType | Backend/src/main/java/com/smartparking/model/Booking.java:82 | writes the vehicle type and nothing else |
| Entities.Booking.SetExitTime | Backend/src/main/java/com/smartparking/model/Booking.java:98 | writes the exit time and nothing else |
| Entities.Booking.SetStatus | Backend/src/main/java/com/smartparking/model/Booking.java:106 | writes the status and nothing else |
| Entities.Booking.SetParkingFee | Backend/src/main/java/com/smartparking/model/Booking.java:114 | writes the fee and nothing else |
| Entities.Booking.SetTransactionId | Backend/src/main/java/com/smartparking/model/Booking.java:122 | writes the transaction id and nothing else |
| Entities.Booking.SetPaymentStatus | Backend/src/main/java/com/smartparking/model/Booking.java:130 | writes the payment status and nothing else |
| Entities.Booking.SetPaymentTime | Backend/src/main/java/com/smartparking/model/Booking.java:138 | writes the payment time and nothing else |
| Entities.Booking.StartTime | Backend/src/main/java/com/smartparking/model/Booking.java:143 | `getStartTime` reads the entry time |
| Entities.Booking.SetStartTime | Backend/src/main/java/com/smartparking/model/Booking.java:147 | `setStartTime` writes only the entry time, which `getStartTime` then returns |
| Entities.Booking.EndTime | Backend/src/main/java/com/smartparking/model/Booking.java:151 | `getEndTime` reads the exit time |
| Entities.Booking.SetEndTime | Backend/src/main/java/com/smartparking/model/Booking.java:155 | `setEndTime` writes only the exit time, which `getEndTime` then returns |
| Entities.NewSlotRecord | Backend/src/main/java/com/smartparking/model/Slot.java:17-34 | a new slot is available, not disabled, of type "CAR", everything else null |
| Entities.StoredSlotType | Backend/src/main/java/com/smartparking/model/Slot.java:94-96 | null is stored as "CAR", any other value as given |
| Entities.Slot.constructor | Backend/src/main/java/com/smartparking/model/Slot.java:34 | `new Slot()` holds the default record |
| Entities.Slot.WithNumber | Backend/src/main/java/com/smartparking/model/Slot.java:36-40 | the constructor sets number and location and leaves the slot available |
| Entities.Slot.Load | Backend/src/main/java/com/smartparking/repository/SlotRepository.java:15 | a managed object loaded from a row holds exactly that row |
| Entities.Slot.SetId | Backend/src/main/java/com/smartparking/model/Slot.java:46 | writes the id and nothing else |
| Entities.Slot.SetSlotNumber | Backend/src/main/java/com/smartparking/model/Slot.java:54 | writes the number and nothing else |
| Entities.Slot.SetAvailable | Backend/src/main/java/com/smartparking/model/Slot.java:62-64 | writes `available` and nothing else |
| Entities.Slot.SetDisabled | Backend/src/main/java/com/smartparking/model/Slot.java:70-72 | writes `isDisabled` and nothing else |
| Entities.Slot.SetMaintenanceNotes | Backend/src/main/java/com/smartparking/model/Slot.java:78 | writes the notes and nothing else |
| Entities.Slot.SetLocation | Backend/src/main/java/com/smartparking/model/Slot.java:86 | writes the location and nothing else |
| Entities.Slot.SetSlotType | Backend/src/main/java/com/smartparking/model/Slot.java:94-96 | writes the type, never null: null becomes "CAR" |
| Repository.HasTimeConflict | Backend/src/main/java/com/smartparking/repository/BookingRepository.java:22-32 | true iff some row is ACTIVE on the slot, entered before the new exit, and has no exit or left after the new entry |
| Repository.TouchingWindowsDoNotConflict | Backend/src/main/java/com/smartparking/repository/BookingRepository.java:26 | windows that only touch never conflict |
| Repository.DeactivationCreatesNoConflict | Backend/src/main/java/com/smartparking/repository/BookingRepository.java:25 | rewriting rows so that every changed row is no longer ACTIVE never creates a conflict |
| Repository.FindByUserId | Backend/src/main/java/com/smartparking/repository/BookingRepository.java:37 | exactly the rows of the user |
| Repository.FindBySlotId | Backend/src/main/java/com/smartparking/repository/BookingRepository.java:64 | exactly the rows of the slot |
| Repository.FindByUserIdAndStatus | Backend/src/main/java/com/smartparking/repository/BookingRepository.java:59 | exactly the rows of the user with the status |
| Repository.FindBookingsByDateRange | Backend/src/main/java/com/smartparking/repository/BookingRepository.java:79-86 | exactly the rows whose entry lies in [start, end], both ends included |
| Repository.TotalRevenueByRow | Backend/src/main/java/com/smartparking/repository/BookingRepository.java:91-95 | revenue adds the fee of each COMPLETED row with a fee; other rows add nothing; 0 for no rows |
| Repository.NoCompletedNoRevenue | Backend/src/main/java/com/smartparking/repository/BookingRepository.java:91-95 | without COMPLETED rows the revenue is 0 |
| Repository.RevenueNonNegative | Backend/src/main/java/com/smartparking/repository/BookingRepository.java:91-95 | revenue is never negative while no fee is |
| Repository.StatusCountsPartition | Backend/src/main/java/com/smartparking/repository/BookingRepository.java:100-113 | the three status counts add up to at most the row count, and exactly to it when no status is null |
| Repository.FindCurrentBookingsByUserId | Backend/src/main/java/com/smartparking/repository/BookingRepository.java:118-119 | exactly the user's ACTIVE rows, whatever their exit time, latest entry first |
| Repository.CurrentCountVersusList | Backend/src/main/java/com/smartparking/repository/BookingRepository.java:139-140 | the current count falls short of the current list by exactly the ACTIVE rows with an exit time |
| Repository.FindPastBookingsByUserId | Backend/src/main/java/com/smartparking/repository/BookingRepository.java:124-125 | exactly the user's rows with an exit time and a status other than ACTIVE, latest exit first |
| Repository.PastCountVersusList | Backend/src/main/java/com/smartparking/repository/BookingRepository.java:145-146 | the past count exceeds the past list by exactly the exited rows that are ACTIVE or have no status |
| Stores.LookupSlot | Backend/src/main/java/com/smartparking/repository/SlotRepository.java:15 | `findById` finds a stored row with that id, or nothing when there is none or the id is null |
| Stores.LookupBooking | Backend/src/main/java/com/smartparking/repository/BookingRepository.java:17 | `findById` finds a stored row with that id, or nothing when there is none or the id is null |
| Stores.SaveSlotRowFound | Backend/src/main/java/com/smartparking/repository/SlotRepository.java:15 | saving keeps ids valid, the saved row is found again under its id, and the bookings are untouched |
| Stores.SaveSlotRowKeepsOthers | Backend/src/main/java/com/smartparking/repository/SlotRepository.java:15 | saving a slot leaves every other slot and every booking as it was |
| Stores.SaveBookingRowFound | Backend/src/main/java/com/smartparking/repository/BookingRepository.java:17 | saving keeps ids valid, the saved row is found again under its id, and the slots are untouched |
| Stores.SaveBookingRowKeepsOthers | Backend/src/main/java/com/smartparking/repository/BookingRepository.java:17 | saving a booking leaves every other booking and every slot as it was |
| Stores.ParkingStore.constructor | Backend/src/main/java/com/smartparking/repository/SlotRepository.java:15 | empty slot and booking tables with identities starting at 1 |
| Stores.ParkingStore.FindSlot | Backend/src/main/java/com/smartparking/repository/SlotRepository.java:15 | null iff no row has the id; otherwise a fresh object holding the row |
| Stores.ParkingStore.FindBooking | Backend/src/main/java/com/smartparking/repository/BookingRepository.java:17 | null iff no row has the id; otherwise a fresh object holding the row |
| Stores.ParkingStore.SaveSlot | Backend/src/main/java/com/smartparking/repository/SlotRepository.java:15 | writes the object's fields over its row, or appends it under a new id that is set on the object |
| Stores.ParkingStore.SaveBooking | Backend/src/main/java/com/smartparking/repository/BookingRepository.java:17 | writes the object's fields over its row, or appends it under a new id that is set on the object |
| Stores.ParkingStore.DeleteSlot | Backend/src/main/java/com/smartparking/repository/SlotRepository.java:15 | `deleteById` removes the row with the id |
| BookingService.ResolvedTypeIsRegistered | Backend/src/main/java/com/smartparking/service/BookingService.java:118-135 | `ResolveVehicleType` with registered vehicles: the requested type if registered, else the type of the first vehicle marked default, else the first vehicle's; always a registered type |
| BookingService.ResolvedTypeWithoutVehicles | Backend/src/main/java/com/smartparking/service/BookingService.java:136-149 | `ResolveVehicleType` without vehicles: the non-empty profile type, else the requested type, else CAR; without a user and a type, CAR |
| BookingService.BookSlot | Backend/src/main/java/com/smartparking/service/BookingService.java:92-216 | the entity-level booking produces exactly the result and tables of `BookSlotSpec` |
| BookingService.BookSlotRejectionOrder | Backend/src/main/java/com/smartparking/service/BookingService.java:98-184 | missing slot, then missing entry time, then a vehicle type that cannot be resolved, then exit before entry, each rejected with its own error; an occupied slot under maintenance is never reported as under maintenance; a rejection writes nothing |
| BookingService.BookSlotCheckOrder | Backend/src/main/java/com/smartparking/service/BookingService.java:155-201 | once slot, entry and type are settled and exit is not before entry (exit equal to entry passes): a time conflict, then an unavailable slot, then maintenance, then a slot type differing from the vehicle type ignoring case, each with its own error; success iff all four pass |
| BookingService.BookSlotSuccess | Backend/src/main/java/com/smartparking/service/BookingService.java:189-212 | on success: the request is stored ACTIVE with the resolved vehicle type, which matches the slot type ignoring case; the slot was free, enabled and conflict-free, and becomes occupied with its effective type stored |
| BookingService.BookSlotChangesOnlyItsRows | Backend/src/main/java/com/smartparking/service/BookingService.java:203-212 | a request whose id is not stored gets the next identity value, one whose id is stored replaces that booking; no other booking and no other slot changes |
| BookingService.BookedSlotCannotBeBookedAgain | Backend/src/main/java/com/smartparking/service/BookingService.java:163-178 | after a booking succeeds, a second booking of the same slot fails |
| BookingService.BookSlotBlocksItsWindow | Backend/src/main/java/com/smartparking/service/BookingService.java:163-167 | after a booking succeeds, its own window (to its exit, or two hours after entry) conflicts on its slot |
| BookingService.CheckoutBooking | Backend/src/main/java/com/smartparking/service/BookingService.java:225-302 | the entity-level checkout produces exactly `CheckoutSpec` |
| BookingService.CheckoutLeavesBookingActive | Backend/src/main/java/com/smartparking/service/BookingService.java:230-301 | succeeds iff the booking is ACTIVE; stamps exit, fee and PENDING_PAYMENT and keeps it ACTIVE; slots and every other booking untouched; not paid, no transaction id |
| BookingService.CancelBooking | Backend/src/main/java/com/smartparking/service/BookingService.java:308-328 | the entity-level cancel produces exactly `CancelSpec`, rolling back when the slot is missing |
| BookingService.CancelReleasesSlot | Backend/src/main/java/com/smartparking/service/BookingService.java:312-327 | a missing booking fails as not found, a COMPLETED one as not cancellable, a missing slot as not found; otherwise the booking becomes CANCELLED, keeps its exit time or gets `now`, and its slot becomes available, with no other booking or slot changed; a failure changes nothing |
| BookingService.CancelCreatesNoConflict | Backend/src/main/java/com/smartparking/service/BookingService.java:316-327 | any conflict after a cancel was a conflict before it |
| BookingService.FixCorruptedBooking | Backend/src/main/java/com/smartparking/service/BookingService.java:572-589 | the entity-level repair produces exactly `FixCorruptedSpec` |
| BookingService.FixCorruptedClearsExitOnly | Backend/src/main/java/com/smartparking/service/BookingService.java:577-588 | clears the exit time iff the booking is ACTIVE with one, changes nothing else, and is idempotent |
| BookingService.RepairUndoesCheckoutExit | Backend/src/main/java/com/smartparking/service/BookingService.java:572-589 | a checked-out booking is corrupted by the repair's test, and repairing it clears the exit checkout set |
| BookingService.UserBookingView | Backend/src/main/java/com/smartparking/service/BookingService.java:350-405 | fails iff the slot id is null; defaults to type CAR and status ACTIVE; "N/A" and "Unknown" for a missing slot; duration 0 without both times |
| BookingService.GetUserBookings | Backend/src/main/java/com/smartparking/service/BookingService.java:337-420 | one view per booking of the user, in order; fails iff one of them has a null slot id |
| BookingService.ViewAll | Backend/src/main/java/com/smartparking/service/BookingService.java:350-413 | maps every booking to its view, failing iff some slot id is null |
| BookingService.ConvertToResponse | Backend/src/main/java/com/smartparking/service/BookingService.java:521-552 | the admin view copies id, slot id, times, fee and transaction id, with the type and status defaults and "N/A" for a missing slot; it carries user info (id, name, e-mail, and the e-mail again as contact) iff the booking has a user id that is stored |
| PaymentService.UuidPrefix | Backend/src/main/java/com/smartparking/service/PaymentService.java:41-43 | the first 16 characters of a UUID without dashes are its first three groups |
| PaymentService.TransactionIdFormat | Backend/src/main/java/com/smartparking/service/PaymentService.java:41-43 | "TXN_" plus 16 uppercase hex digits, 20 characters, from the UUID's first three groups |
| PaymentService.ProcessPayment | Backend/src/main/java/com/smartparking/service/PaymentService.java:21-36 | succeeds iff the amount is positive and the draw is below 0.95; carries a transaction id iff it succeeds; each branch has its message |
| PaymentController.StatusCode | Backend/src/main/java/com/smartparking/controller/PaymentController.java:70-73 | 403 exactly for another user's booking, 400 otherwise |
| PaymentController.CheckedBooking | Backend/src/main/java/com/smartparking/controller/PaymentController.java:55-81 | passes only with a body, booking id and amount, and a stored booking owned by the caller |
| PaymentController.ProcessPayment | Backend/src/main/java/com/smartparking/controller/PaymentController.java:48-150 | the entity-level endpoint produces exactly `ProcessPaymentSpec` |
| PaymentController.RejectedBeforeAnyWrite | Backend/src/main/java/com/smartparking/controller/PaymentController.java:55-81 | a request failing a check writes nothing; the rejection is 403 iff the booking belongs to another user |
| PaymentController.DeclinedPaymentKeepsFeeCorrection | Backend/src/main/java/com/smartparking/controller/PaymentController.java:84-137 | the fee is overwritten iff it differs from the amount by more than 1.0, and the overwrite stays when the gateway declines; no other booking and no slot changes |
| PaymentController.NonPositiveAmountStillCorrectsFee | Backend/src/main/java/com/smartparking/controller/PaymentController.java:84-97 | a non-positive amount is declined as invalid after a far-off fee was overwritten with it |
| PaymentController.Settle | Backend/src/main/java/com/smartparking/controller/PaymentController.java:99-117 | after the gateway's answer, releasing the slot and completing the booking produce exactly `SettleSpec`, the tail of `ProcessPaymentSpec` |
| PaymentController.AcceptedPaymentCompletesBooking | Backend/src/main/java/com/smartparking/controller/PaymentController.java:99-117 | an accepted payment frees the slot and completes the booking as PAID with the gateway's id, whatever its status was; no other booking or slot changes |
| PaymentController.PaymentHistory | Backend/src/main/java/com/smartparking/controller/PaymentController.java:157-178 | exactly the caller's COMPLETED bookings, with their number |
| PaymentController.PaymentByBooking | Backend/src/main/java/com/smartparking/controller/PaymentController.java:185-214 | the owner gets the payment fields; another user gets 403; a missing booking fails |
| BookingController.StatusCode | Backend/src/main/java/com/smartparking/controller/BookingController.java:74-77 | 403 exactly for another user's booking, 400 otherwise |
| BookingController.OwnedBooking | Backend/src/main/java/com/smartparking/controller/BookingController.java:74-77 | passes iff the booking exists and its owner is the caller; 403 iff the owner is someone else |
| BookingController.EndpointView | Backend/src/main/java/com/smartparking/controller/BookingController.java:43-53 | the label "Slot-<id>", type default CAR; fails on a null status; no fee unless asked for |
| BookingController.Book | Backend/src/main/java/com/smartparking/controller/BookingController.java:32-57 | the endpoint produces exactly `BookSpec` |
| BookingController.BookIsForCaller | Backend/src/main/java/com/smartparking/controller/BookingController.java:38-41 | the user id in the request is ignored; the booking is the caller's and reported ACTIVE |
| BookingController.CheckoutEndpoint | Backend/src/main/java/com/smartparking/controller/BookingController.java:65-85 | the endpoint produces exactly `CheckoutEndpointSpec` |
| BookingController.CancelEndpoint | Backend/src/main/java/com/smartparking/controller/BookingController.java:92-111 | the endpoint produces exactly `CancelEndpointSpec` |
| BookingController.GatedEndpointsChangeNothingForOthers | Backend/src/main/java/com/smartparking/controller/BookingController.java:65-111 | checkout and cancel of a booking not owned by the caller change nothing; for the owner they do what the service does |
| BookingController.BookingDetails | Backend/src/main/java/com/smartparking/controller/BookingController.java:147-176 | succeeds iff the caller owns the booking and its status is set; the owner's view with fee and transaction id; otherwise the gate's error |
| BookingController.RepairCandidates | Backend/src/main/java/com/smartparking/controller/BookingController.java:237-239 | exactly the caller's ACTIVE bookings with an exit time; a null status among the caller's bookings fails |
| BookingController.FixCorruptedBookings | Backend/src/main/java/com/smartparking/controller/BookingController.java:224-278 | the endpoint produces exactly `FixCorruptedBookingsSpec` |
| BookingController.RepairEach | Backend/src/main/java/com/smartparking/controller/BookingController.java:251-262 | the loop repairs each booking in turn, skipping failures, and returns exactly `FixAll` |
| BookingController.FixCorruptedFrame | Backend/src/main/java/com/smartparking/service/BookingService.java:572-589 | one repair leaves every row as it was or with its exit cleared, and leaves slots alone |
| BookingController.FixAllRepairsEvery | Backend/src/main/java/com/smartparking/controller/BookingController.java:251-262 | the batch only clears exit times; every selected stored booking is reported fixed, in order |
| BookingController.RepairReportsEveryCorruptedBooking | Backend/src/main/java/com/smartparking/controller/BookingController.java:237-272 | with no candidates, fixedCount 0 and nothing written; otherwise every candidate is reported fixed, in order |
| SlotService.SlotsByLocation | Backend/src/main/java/com/smartparking/service/SlotService.java:35-37 | exactly the slots of the location |
| SlotService.AvailableSlots | Backend/src/main/java/com/smartparking/service/SlotService.java:42-46 | exactly the slots that are available and not disabled |
| SlotService.AvailableSlotsByLocation | Backend/src/main/java/com/smartparking/service/SlotService.java:51-55 | exactly the location's slots that are available and not disabled |
| SlotService.AvailableAndDisabledWithinTotal | Backend/src/main/java/com/smartparking/service/SlotService.java:146-166 | available count + disabled count ≤ slot count at every location |
| SlotService.AddSlot | Backend/src/main/java/com/smartparking/service/SlotService.java:60-78 | the entity-level add produces exactly `AddSlotSpec` |
| SlotService.AddSlotAppends | Backend/src/main/java/com/smartparking/service/SlotService.java:60-78 | succeeds iff the location exists and a slot number is given; a missing location is reported first, then a missing number (the not-null `slotNumber` column of Slot.java refuses the save); appends under a new id with the number and location, type CAR, enabled, available unless false was requested |
| SlotService.UpdateSlot | Backend/src/main/java/com/smartparking/service/SlotService.java:91-109 | the entity-level update produces exactly `UpdateSlotSpec` |
| SlotService.UpdateSlotKeepsState | Backend/src/main/java/com/smartparking/service/SlotService.java:91-109 | keeps id, availability, maintenance state and notes; applies only a non-empty number and type; an unchanged location id never fails; failure changes nothing |
| SlotService.ToggleSlotAvailability | Backend/src/main/java/com/smartparking/service/SlotService.java:114-122 | the entity-level toggle produces exactly `ToggleSpec` |
| SlotService.SetSlotAvailability | Backend/src/main/java/com/smartparking/service/SlotService.java:127-131 | the entity-level setter produces exactly `SetAvailabilitySpec` |
| SlotService.DisableSlot | Backend/src/main/java/com/smartparking/service/SlotService.java:171-178 | the entity-level disable produces exactly `DisableSpec` |
| SlotService.EnableSlot | Backend/src/main/java/com/smartparking/service/SlotService.java:183-190 | the entity-level enable produces exactly `EnableSpec` |
| SlotService.UpdateMaintenanceNotes | Backend/src/main/java/com/smartparking/service/SlotService.java:195-200 | the entity-level notes update produces exactly `UpdateNotesSpec` |
| SlotService.SaveEditedInPlace | Backend/src/main/java/com/smartparking/service/SlotService.java:108 | saving an edited slot overwrites its own row in place |
| SlotService.ToggleTwiceRestores | Backend/src/main/java/com/smartparking/service/SlotService.java:114-122 | toggling flips only `available`, and toggling twice restores the tables |
| SlotService.MaintenanceKeepsAvailability | Backend/src/main/java/com/smartparking/service/SlotService.java:171-190 | disable stores the notes and enable clears them, neither touching `available`; disable then enable restores the slot without notes |
| SlotService.EditsOfMissingSlotFail | Backend/src/main/java/com/smartparking/service/SlotService.java:83-86 | every edit of a missing slot fails and changes nothing |
| SlotService.DeleteSlot | Backend/src/main/java/com/smartparking/service/SlotService.java:136-141 | the entity-level delete produces exactly `DeleteSlotSpec` |
| SlotService.DeleteSlotRemovesOne | Backend/src/main/java/com/smartparking/service/SlotService.java:136-141 | succeeds iff the id exists; removes exactly that row and keeps the others in order |
| ReportService.Utilization | Backend/src/main/java/com/smartparking/service/ReportService.java:56-65 | occupied = total − available − disabled = unavailable slots not in maintenance; rate is ⌊occupied·100/total⌋ in 0..100, 0 without slots |
| ReportService.NoCompletedCountedNoRevenue | Backend/src/main/java/com/smartparking/service/ReportService.java:42-52 | no COMPLETED booking counted means no revenue |
| ReportService.AverageFee | Backend/src/main/java/com/smartparking/service/ReportService.java:54 | revenue per completed booking, 0 when there is none |
| ReportService.GenerateReport | Backend/src/main/java/com/smartparking/service/ReportService.java:38-83 | counts the bookings entered in range; the COMPLETED, ACTIVE and CANCELLED counts are the numbers of those bookings with each status, and sum to at most the total; revenue counts only COMPLETED fees; slot figures are `Utilization` |
| ReportService.Durations | Backend/src/main/java/com/smartparking/service/ReportService.java:180-187 | one non-negative duration per booking with both times and exit not before entry |
| ReportService.MetricsOf | Backend/src/main/java/com/smartparking/service/ReportService.java:189-209 | all four metrics are 0 for no durations |
| ReportService.MetricsBounds | Backend/src/main/java/com/smartparking/service/ReportService.java:189-203 | min and max are durations bounding every one; average and median lie between them |
| ReportService.MedianWithinSorted | Backend/src/main/java/com/smartparking/service/ReportService.java:195-198 | the median of a sorted list lies between its ends |
| ReportService.DurationMetricsNonNegative | Backend/src/main/java/com/smartparking/service/ReportService.java:186 | the minimum duration is never negative |
| ReportService.MedianSplits | Backend/src/main/java/com/smartparking/service/ReportService.java:195-198 | at least half of the durations are ≤ the median and at least half are ≥ it |
| ReportService.HourlyBookings | Backend/src/main/java/com/smartparking/service/ReportService.java:236-243 | exactly the hours with an entry, each with its number of entries, each hour once (in increasing hour order) |
| ReportService.TopPeakHours | Backend/src/main/java/com/smartparking/service/ReportService.java:246-250 | min(5, hours) entries for distinct hours, in non-increasing count order |
| ReportService.TopPeakHoursAreTop | Backend/src/main/java/com/smartparking/service/ReportService.java:246-250 | the top hours are distinct hours of the map, and any hour left out has no more bookings than any kept |
| ReportService.ReplaceLineBreaks | Backend/src/main/java/com/smartparking/service/ReportService.java:397 | CR and LF become spaces, every other character stays |
| ReportService.DoubleQuotes | Backend/src/main/java/com/smartparking/service/ReportService.java:399 | doubling quotes adds no line break |
| ReportService.UndoubleDoubleQuotes | Backend/src/main/java/com/smartparking/service/ReportService.java:399 | reading doubled quotes back gives the original text |
| ReportService.EscapeCsv | Backend/src/main/java/com/smartparking/service/ReportService.java:395-402 | null gives ""; no output has a line break; text without comma, quote or line break is unchanged |
| ReportService.EscapeCsvRoundTrip | Backend/src/main/java/com/smartparking/service/ReportService.java:395-402 | an RFC 4180 reader gets the text back with line breaks as spaces; quoted iff the text has a comma or a quote |
| ReportService.SafeInt | Backend/src/main/java/com/smartparking/service/ReportService.java:404-406 | "" exactly for null, and never a line break |
| ReportService.JoinFields | Backend/src/main/java/com/smartparking/service/ReportService.java:373-385 | joining one-line fields gives one line |
| ReportService.CsvFields | Backend/src/main/java/com/smartparking/service/ReportService.java:368-384 | one field per header column |
| ReportService.CsvBaseMembers | Backend/src/main/java/com/smartparking/service/ReportService.java:342-351 | the starting list is drawn from the bookings, within the range when both ends are given, and holds every selected booking |
| ReportService.CsvFilteredMembers | Backend/src/main/java/com/smartparking/service/ReportService.java:353-359 | after the in-memory filters, exactly the bookings matching every given filter |
| ReportService.CsvRowsSpec | Backend/src/main/java/com/smartparking/service/ReportService.java:342-362 | the export is in ascending entry-time order and holds exactly the bookings matching every given filter |
| ReportService.GenerateBookingsCsv | Backend/src/main/java/com/smartparking/service/ReportService.java:339-389 | the method's text is exactly `CsvExport` of the stored tables |
| ReportService.WriteCsv | Backend/src/main/java/com/smartparking/service/ReportService.java:364-388 | the builder loop yields the header followed by each booking's line in order |
| ReportService.SafeFeeOneLine | Backend/src/main/java/com/smartparking/service/ReportService.java:380 | a formatted fee never has a line break |
| ReportService.CsvLineCount | Backend/src/main/java/com/smartparking/service/ReportService.java:368-385 | each booking's line has exactly one line break |
| ReportService.CsvLinesCount | Backend/src/main/java/com/smartparking/service/ReportService.java:367-386 | n bookings give exactly n line breaks |
| ReportService.CsvHeaderCount | Backend/src/main/java/com/smartparking/service/ReportService.java:365 | the header is one line |
| ReportService.CsvExportLines | Backend/src/main/java/com/smartparking/service/ReportService.java:364-388 | the export has 1 + (exported bookings) lines and ends with a line break |
| ReportService.Segment | Backend/src/main/java/com/smartparking/service/ReportService.java:648-655 | ONE_TIME iff one booking; else VIP iff ≥ 10 bookings or ≥ 1000 spent; else REGULAR |
| ReportService.SegmentOrder | Backend/src/main/java/com/smartparking/service/ReportService.java:648-655 | from two bookings on, more bookings or spend never demotes a VIP; one booking is ONE_TIME whatever the spend |
| ReportService.LatestEntry | Backend/src/main/java/com/smartparking/service/ReportService.java:641-645 | the greatest entry time present, or none iff no booking has one |
| ReportService.Behaviors | Backend/src/main/java/com/smartparking/service/ReportService.java:619-674 | no more entries than listed users, each for a listed user with ≥ 1 booking and equal to that user's analytics |
| ReportService.BehaviorsDistinct | Backend/src/main/java/com/smartparking/service/ReportService.java:617-626 | distinct listed user ids (the users' primary keys) give at most one entry per user |
| ReportService.BehaviorsCoverUsers | Backend/src/main/java/com/smartparking/service/ReportService.java:624-626 | a listed user has an entry iff they have a booking in the period |
| ReportService.UserBehaviorAnalytics | Backend/src/main/java/com/smartparking/service/ReportService.java:615-675 | fails iff there is a user and a booking in range with a null user id; otherwise the behaviours over the range |
| ReportService.CellFor | Backend/src/main/java/com/smartparking/service/ReportService.java:702-721 | the cell counts the entries at that hour and weekday; percentage = count·100/slots capped at 100, 0 without slots |
| ReportService.CellIndex | Backend/src/main/java/com/smartparking/service/ReportService.java:697-698 | index h·7+d−1 gives back hour h and weekday d |
| ReportService.OccupancyHeatmap | Backend/src/main/java/com/smartparking/service/ReportService.java:690-729 | the nested loops emit 168 cells, cell i for hour i/7 and weekday i%7+1 |
| ReportService.HeatmapGrid | Backend/src/main/java/com/smartparking/service/ReportService.java:697-726 | every cell is within 0..100 %, hour-major, and each (hour, day) has its cell at h·7+d−1 |
| OccupancyStatistics.Percentage | Backend/src/main/java/com/smartparking/service/OccupancyStatisticsService.java:58 | part/whole·100, 0 for no whole, within 0..100 when part ≤ whole |
| OccupancyStatistics.CurrentCounts | Backend/src/main/java/com/smartparking/service/OccupancyStatisticsService.java:43-58 | total, occupied (unavailable and enabled) ≤ total, and the percentage in 0..100 |
| OccupancyStatistics.CurrentlyAvailableIsBookable | Backend/src/main/java/com/smartparking/service/OccupancyStatisticsService.java:44-47 | total − occupied − disabled is the bookable count, equal to the slot service's available count, never negative |
| OccupancyStatistics.BookingsAtLocation | Backend/src/main/java/com/smartparking/service/OccupancyStatisticsService.java:303-311 | no more bookings than were given |
| OccupancyStatistics.BookingsAtLocationMembers | Backend/src/main/java/com/smartparking/service/OccupancyStatisticsService.java:303-311 | a booking is kept iff some slot of the location has its slot id |
| OccupancyStatistics.OverlapVersusConflict | Backend/src/main/java/com/smartparking/service/OccupancyStatisticsService.java:296-301 | every conflict with an exit overlaps; leaving exactly at the start overlaps without conflicting |
| OccupancyStatistics.OccupiedMonotone | Backend/src/main/java/com/smartparking/service/OccupancyStatisticsService.java:296-301 | widening the window never lowers the occupied count |
| OccupancyStatistics.AdjacentBucketsMissBoundary | Backend/src/main/java/com/smartparking/service/OccupancyStatisticsService.java:185-187 | two adjacent buckets miss exactly the entries at their shared boundary |
| OccupancyStatistics.BucketsTile | Backend/src/main/java/com/smartparking/service/OccupancyStatisticsService.java:171-192 | bucket i covers [first + width·i, first + width·(i+1)); buckets exist iff first < limit; the last starts before limit and reaches it |
| OccupancyStatistics.HourlyBucketCount | Backend/src/main/java/com/smartparking/service/OccupancyStatisticsService.java:171-192 | ⌈(end − start)/60⌉ hourly buckets, none when start ≥ end |
| OccupancyStatistics.DayBucketCount | Backend/src/main/java/com/smartparking/service/OccupancyStatisticsService.java:201-225 | (endDay − startDay)/step + 1 buckets when startDay ≤ endDay, otherwise none |
| OccupancyStatistics.HourlyDataPoints | Backend/src/main/java/com/smartparking/service/OccupancyStatisticsService.java:167-195 | the hourly loop emits exactly the one-hour buckets from start while before end |
| OccupancyStatistics.CalendarDataPoints | Backend/src/main/java/com/smartparking/service/OccupancyStatisticsService.java:197-261 | the daily and weekly loops emit the day or week buckets from the start day while not after the end day |
| OccupancyStatistics.ParseGranularity | Backend/src/main/java/com/smartparking/service/OccupancyStatisticsService.java:150-162 | a recognised granularity equals its name ignoring case; unrecognised iff null or no name matches |
| OccupancyStatistics.GranularityNames | Backend/src/main/java/com/smartparking/service/OccupancyStatisticsService.java:71-85 | the four wrapper names are recognised in any case; others and null are not |
| OccupancyStatistics.GenerateDataPoints | Backend/src/main/java/com/smartparking/service/OccupancyStatisticsService.java:150-165 | the series for each granularity; an unrecognised one gives none |
| OccupancyStatistics.AverageBetweenExtremes | Backend/src/main/java/com/smartparking/service/OccupancyStatisticsService.java:320-328 | the average lies between the minimum and the maximum |
| OccupancyStatistics.AverageStay | Backend/src/main/java/com/smartparking/service/OccupancyStatisticsService.java:334-338 | 0 when no booking has both times |
| OccupancyStatistics.PeriodRevenueByRow | Backend/src/main/java/com/smartparking/service/OccupancyStatisticsService.java:340-343 | the period revenue adds every set fee, row by row, whatever the status |
| OccupancyStatistics.PeriodRevenueCoversCompleted | Backend/src/main/java/com/smartparking/service/OccupancyStatisticsService.java:340-343 | with non-negative fees it is ≥ the COMPLETED revenue, and equal when only COMPLETED bookings carry fees |
| OccupancyStatistics.AggregateStatistics | Backend/src/main/java/com/smartparking/service/OccupancyStatisticsService.java:313-347 | an empty series sets only average and peak, both 0; otherwise count, average stay and revenue are set |
| OccupancyStatistics.AggregatePeakAndAverage | Backend/src/main/java/com/smartparking/service/OccupancyStatisticsService.java:320-331 | the peak is the largest point percentage and is attained; the average is ≤ the peak and ≥ some point |
| OccupancyStatistics.GetOccupancyStatistics | Backend/src/main/java/com/smartparking/service/OccupancyStatisticsService.java:37-69 | fails iff the location is unknown; otherwise counts, the series for the granularity and the aggregates over it |
| OccupancyStatistics.UsageTrendsBounds | Backend/src/main/java/com/smartparking/service/OccupancyStatisticsService.java:113-148 | `TrendsOver`, which `UsageTrendsOf` applies to the period's bookings: completed + cancelled ≤ total; revenue adds every fee; the completion rate is `Percentage(completed, total)`, in 0..100 and 0 for an empty period |
| OccupancyStatistics.HourlyCounts | Backend/src/main/java/com/smartparking/service/OccupancyStatisticsService.java:92-97 | exactly the hours with an entry, each with its number of entries |
| OccupancyStatistics.PeakHourBelow | Backend/src/main/java/com/smartparking/service/OccupancyStatisticsService.java:99-102 | −1 iff no hour is counted; otherwise a counted hour with the largest count |
| OccupancyStatistics.GetPeakHours | Backend/src/main/java/com/smartparking/service/OccupancyStatisticsService.java:87-111 | the breakdown over all bookings with a slot; the peak has the largest count; no peak means 0 bookings |
| OccupancyStatistics.NoPeakHourIffNoEntries | Backend/src/main/java/com/smartparking/service/OccupancyStatisticsService.java:88-104 | the peak is −1 iff no booking with a slot has an entry time |
| OccupancyStatistics.NoPeakIffNoEntry | Backend/src/main/java/com/smartparking/service/OccupancyStatisticsService.java:92-102 | for any bookings, no peak iff no entry time |
| OccupancyStatistics.EntryHourCounted | Backend/src/main/java/com/smartparking/service/OccupancyStatisticsService.java:92-97 | every entry's hour is in the breakdown |
| OccupancyStatistics.NoEntryNoCounts | Backend/src/main/java/com/smartparking/service/OccupancyStatisticsService.java:92-97 | without entry times the breakdown is empty |
| MapController.SearchLocations | Backend/src/main/java/com/smartparking/controller/MapController.java:220-242 | exactly the locations whose name, address or description contains the query ignoring case, in their stored order (a subsequence of the locations); count = number of results |
| MapController.SearchIgnoresQueryCase | Backend/src/main/java/com/smartparking/controller/MapController.java:224-231 | an upper-cased query finds the same locations in the same order |
| MapController.EmptyQueryFindsDescribed | Backend/src/main/java/com/smartparking/controller/MapController.java:224-231 | the empty query finds exactly the locations with some text field set |
| MapController.LayoutOf | Backend/src/main/java/com/smartparking/controller/MapController.java:105-109 | fails iff some flag is null; otherwise total = slot count and available = slots flagged true ≤ total |
| MapController.ZoneSlots | Backend/src/main/java/com/smartparking/controller/MapController.java:128-130 | exactly the slots whose zone equals the given one ignoring case, in their stored order (a subsequence of the slots) |
| MapController.ZoneIgnoresCase | Backend/src/main/java/com/smartparking/controller/MapController.java:128-130 | a lower-cased zone selects the same slots |
| MapController.ZoneWithinLocation | Backend/src/main/java/com/smartparking/controller/MapController.java:122-143 | when the location's layout (`SlotLayoutResponse`) succeeds, the zone's (`ZoneLayoutResponse`) does too and its counts do not exceed the location's |
| MapController.Present | Backend/src/main/java/com/smartparking/controller/MapController.java:169-213 | exactly the coordinate values that are set |
| MapController.MapBoundsOf | Backend/src/main/java/com/smartparking/controller/MapController.java:170-213 | "No locations available" iff there are no locations; the center is the midpoint of the corners |
| MapController.MapBoundsContain | Backend/src/main/java/com/smartparking/controller/MapController.java:170-213 | every set coordinate lies in the box, as does the center; for latitude and for longitude alike, the corners are attained by set coordinates, and a coordinate no location sets gives 0 |
| MapController.PresentSpan | Backend/src/main/java/com/smartparking/controller/MapController.java:181-199 | along one coordinate: every set value lies between the minimum and the maximum, which are attained, and both are 0 when no value is set |

## Left out

- Locking and transactions: the pessimistic lock and `@Transactional` are treated as making each service call one atomic step; an exception inside a transactional call leaves the tables unchanged.
- Fee calculation: `calculateFee`, `calculateDurationMinutes` and `getRatePerHour` belong to a service not in this model and are a parameter of checkout.
- The clock, `Math.random()` and `UUID.randomUUID()`: parameters (`now`, the draw, the UUID text).
- Floating point: money, percentages and averages are exact reals, so rounding and `Double` overflow are not modelled.
- Integer widths: counts are unbounded; the `(int)` and `Math.toIntExact` casts are assumed not to overflow.
- `Duration.toMinutes` on whole-minute times is exact subtraction.
- Date formatting (`LocalDateTime.toString`, `DateTimeFormatter` labels) and `String.valueOf(Double)`: parameters of the CSV export. A data point keeps its period start instead of its label.
- OccupancyStatistics.GenerateDataPoints: monthly buckets need month lengths; the monthly series is a parameter.
- OccupancyStatistics.GetOccupancyStatistics: a data point's occupancy percentage is a parameter, because the class that computes it is not part of this model. The fetch time in milliseconds is left out.
- OccupancyStatistics.GetPeakHours: the source takes the maximum of a `HashMap`'s entries, so which hour wins a tie depends on the map's iteration order. The model picks the earliest hour.
- ReportService.TopPeakHours: the source sorts a `HashMap`'s entries by count with a stable sort, so hours with the same count keep the map's iteration order (bucket order by hour modulo the table size), which also decides which tied hours survive the cut at five. The model orders tied hours by ascending hour.
- OccupancyStatistics.HourlyDataPoints: the per-bucket test dereferences the entry time; rows from the date-range query always have one, and the model counts a missing one as no entry.
- Average durations in the heatmap, in user analytics and in the statistics response, and the booking frequency of user analytics: only the average stay of the statistics response is modelled.
- `getTopUsers`, location comparison, slot utilization ranking, revenue analytics, and the temporal, vehicle-type and status breakdowns of the usage report: aggregate views outside the modelled reports.
- The daily, weekly and monthly report wrappers: they only fix the date range from the clock.
- `getAllLocations`, `getLocationsNearby`, `getLocationDetails` and `refreshLocationData` of the map controller, and the map service's lists: pass-throughs; the lists are parameters.
- The getters and pass-through queries of the booking service (`getBookingById`, `getAllBookings`, `getBookingStatistics`, `getRevenueSummary`, and similar): thin calls to the repository queries modelled in `Repository`.
- `debugUserBookings` (`GET /api/bookings/debug`): a diagnostic endpoint that lists the caller's bookings with logging; outside the modelled booking flow.
- The usage report's `calculateBasicMetrics` (total, completed, active and cancelled counts, and the total, average, maximum and minimum of the COMPLETED fees): an aggregate outside the modelled reports; the revenue and average fee of the summary report are modelled in `GenerateReport`.
- `Booking.setSlotId` and `Booking.setEntryTime`: no modelled operation calls them; `SetStartTime` writes the entry time.
- Case-insensitive comparisons fold ASCII letters only.
- `getUserIdByEmail`, authentication, HTTP status plumbing beyond 400/403/500, logging and the frontend: the caller's id is a parameter.
