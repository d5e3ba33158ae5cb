/** The queries of the booking repository, read over the rows of the `bookings` table in
    storage order. A JPQL comparison with a NULL column is never true, so a row whose
    compared column is null never matches. Each query's selection is a named predicate
    together with a function returning it as a value (`ActiveFor(u)`), so that counts and
    lists built from the same selection can be related by the lemmas of `Common`. */
module Repository {
  import opened Common
  import opened Entities

  // ------------------------------------------------------------------
  // hasTimeConflict
  // ------------------------------------------------------------------

  /** A row matched by `hasTimeConflict(slotId, entryTime, exitTime)`: an ACTIVE booking of
      the same slot that starts strictly before `exitTime` and has no exit or exits
      strictly after `entryTime`. */
  predicate ConflictsWith(b: BookingRecord, slotId: int, entryTime: int, exitTime: int)
  {
    b.slotId == Some(slotId) && b.status == Some(ACTIVE) &&
    b.entryTime.Some? && b.entryTime.value < exitTime &&
    (b.exitTime.None? || b.exitTime.value > entryTime)
  }

  function ConflictingWith(slotId: int, entryTime: int, exitTime: int): BookingRecord -> bool
  {
    (b: BookingRecord) => ConflictsWith(b, slotId, entryTime, exitTime)
  }

  /** `SELECT COUNT(b) > 0 ...`: true exactly when some row conflicts. */
  function HasTimeConflict(rows: seq<BookingRecord>, slotId: int, entryTime: int, exitTime: int): (r: bool)
    ensures r <==> exists i :: 0 <= i < |rows| && ConflictsWith(rows[i], slotId, entryTime, exitTime)
  {
    CountPositive(rows, ConflictingWith(slotId, entryTime, exitTime));
    Count(rows, ConflictingWith(slotId, entryTime, exitTime)) > 0
  }

  /** Windows that only touch never conflict: a booking that ended exactly when the new one
      starts, or starts exactly when the new one ends, is not a conflict. */
  lemma TouchingWindowsDoNotConflict(b: BookingRecord, slotId: int, entryTime: int, exitTime: int)
    requires (b.exitTime == Some(entryTime)) || (b.entryTime == Some(exitTime))
    ensures !ConflictsWith(b, slotId, entryTime, exitTime)
  {
  }

  /** Only ACTIVE bookings block a slot: changing rows that are not ACTIVE, or taking a row
      out of the ACTIVE status, can never create a conflict. */
  lemma {:induction false} DeactivationCreatesNoConflict(before: seq<BookingRecord>, after: seq<BookingRecord>,
                                                        slotId: int, entryTime: int, exitTime: int)
    requires |before| == |after|
    requires forall i :: 0 <= i < |after| ==> after[i] == before[i] || after[i].status != Some(ACTIVE)
    ensures HasTimeConflict(after, slotId, entryTime, exitTime) ==> HasTimeConflict(before, slotId, entryTime, exitTime)
  {
    if HasTimeConflict(after, slotId, entryTime, exitTime) {
      var i :| 0 <= i < |after| && ConflictsWith(after[i], slotId, entryTime, exitTime);
      assert ConflictsWith(before[i], slotId, entryTime, exitTime);
    }
  }

  // ------------------------------------------------------------------
  // Simple finders
  // ------------------------------------------------------------------

  /** `findByUserId(userId)`. */
  function FindByUserId(rows: seq<BookingRecord>, userId: int): (r: seq<BookingRecord>)
    ensures forall i :: 0 <= i < |r| ==> r[i] in rows && r[i].userId == Some(userId)
    ensures forall i :: 0 <= i < |rows| && rows[i].userId == Some(userId) ==> rows[i] in r
  {
    Filter(rows, (b: BookingRecord) => b.userId == Some(userId))
  }

  /** `findBySlotId(slotId)`. */
  function FindBySlotId(rows: seq<BookingRecord>, slotId: int): (r: seq<BookingRecord>)
    ensures forall i :: 0 <= i < |r| ==> r[i] in rows && r[i].slotId == Some(slotId)
    ensures forall i :: 0 <= i < |rows| && rows[i].slotId == Some(slotId) ==> rows[i] in r
  {
    Filter(rows, (b: BookingRecord) => b.slotId == Some(slotId))
  }

  /** `findByUserIdAndStatus(userId, status)`. */
  function FindByUserIdAndStatus(rows: seq<BookingRecord>, userId: int, status: ParkingStatus): (r: seq<BookingRecord>)
    ensures forall i :: 0 <= i < |r| ==> r[i] in rows && r[i].userId == Some(userId) && r[i].status == Some(status)
    ensures forall i :: 0 <= i < |rows| && rows[i].userId == Some(userId) && rows[i].status == Some(status) ==> rows[i] in r
  {
    Filter(rows, (b: BookingRecord) => b.userId == Some(userId) && b.status == Some(status))
  }

  /** A row of `findBookingsByDateRange(start, end)`: its entry time lies in [start, end]. */
  predicate EntryWithin(b: BookingRecord, start: int, end: int)
  {
    b.entryTime.Some? && start <= b.entryTime.value <= end
  }

  /** `findBookingsByDateRange(start, end)`, inclusive at both ends. */
  function FindBookingsByDateRange(rows: seq<BookingRecord>, start: int, end: int): (r: seq<BookingRecord>)
    ensures forall i :: 0 <= i < |r| ==> r[i] in rows && EntryWithin(r[i], start, end)
    ensures forall i :: 0 <= i < |rows| && EntryWithin(rows[i], start, end) ==> rows[i] in r
  {
    Filter(rows, (b: BookingRecord) => EntryWithin(b, start, end))
  }

  // ------------------------------------------------------------------
  // Revenue and status counts
  // ------------------------------------------------------------------

  /** A row that `getTotalRevenue` adds: COMPLETED with a fee. */
  predicate IsRevenue(b: BookingRecord)
  {
    b.status == Some(COMPLETED) && b.parkingFee.Some?
  }

  function FeeOrZero(b: BookingRecord): real
  {
    if b.parkingFee.Some? then b.parkingFee.value else 0.0
  }

  /** `COALESCE(SUM(parkingFee), 0)` over COMPLETED rows with a fee. */
  function TotalRevenue(rows: seq<BookingRecord>): real
  {
    Sum(Filter(rows, IsRevenue), FeeOrZero)
  }

  /** Revenue is the fee of each COMPLETED row with a fee, added row by row; any other row adds nothing. */
  lemma {:induction false} TotalRevenueByRow(rows: seq<BookingRecord>)
    ensures rows == [] ==> TotalRevenue(rows) == 0.0
    ensures rows != [] ==>
      TotalRevenue(rows) == (if IsRevenue(rows[0]) then rows[0].parkingFee.value else 0.0) + TotalRevenue(rows[1..])
  {
    if rows != [] {
      assert Filter(rows, IsRevenue) == (if IsRevenue(rows[0]) then [rows[0]] else []) + Filter(rows[1..], IsRevenue);
      SumAppend(if IsRevenue(rows[0]) then [rows[0]] else [], Filter(rows[1..], IsRevenue), FeeOrZero);
    }
  }

  /** Without COMPLETED bookings the revenue is 0. */
  lemma {:induction false} NoCompletedNoRevenue(rows: seq<BookingRecord>)
    requires forall i :: 0 <= i < |rows| ==> rows[i].status != Some(COMPLETED)
    ensures TotalRevenue(rows) == 0.0
    decreases |rows|
  {
    TotalRevenueByRow(rows);
    if rows != [] {
      NoCompletedNoRevenue(rows[1..]);
    }
  }

  /** Revenue is never negative while no stored fee is. */
  lemma {:induction false} RevenueNonNegative(rows: seq<BookingRecord>)
    requires forall i :: 0 <= i < |rows| ==> FeeOrZero(rows[i]) >= 0.0
    ensures TotalRevenue(rows) >= 0.0
    decreases |rows|
  {
    TotalRevenueByRow(rows);
    if rows != [] {
      RevenueNonNegative(rows[1..]);
    }
  }

  function WithStatus(s: ParkingStatus): BookingRecord -> bool
  {
    (b: BookingRecord) => b.status == Some(s)
  }

  /** `countActiveBookings`, `countCompletedBookings`, `countCancelledBookings`. */
  function CountByStatus(rows: seq<BookingRecord>, s: ParkingStatus): nat
  {
    Count(rows, WithStatus(s))
  }

  /** The three status counts never exceed the table size, and add up to it exactly when
      no row has a null status. */
  lemma {:induction false} StatusCountsPartition(rows: seq<BookingRecord>)
    ensures CountByStatus(rows, ACTIVE) + CountByStatus(rows, COMPLETED) + CountByStatus(rows, CANCELLED) <= |rows|
    ensures (forall i :: 0 <= i < |rows| ==> rows[i].status.Some?) ==>
      CountByStatus(rows, ACTIVE) + CountByStatus(rows, COMPLETED) + CountByStatus(rows, CANCELLED) == |rows|
    decreases |rows|
  {
    if rows != [] {
      var tail := rows[1..];
      StatusCountsPartition(tail);
      assert forall i :: 0 <= i < |tail| ==> tail[i] == rows[i + 1];
      CountCons(rows, WithStatus(ACTIVE));
      CountCons(rows, WithStatus(COMPLETED));
      CountCons(rows, WithStatus(CANCELLED));
      StatusOfOneRow(rows[0]);
    }
  }

  /** A row has at most one of the three statuses, and exactly one when its status is set. */
  lemma StatusOfOneRow(b: BookingRecord)
    ensures var n := (if WithStatus(ACTIVE)(b) then 1 else 0) + (if WithStatus(COMPLETED)(b) then 1 else 0) +
                     (if WithStatus(CANCELLED)(b) then 1 else 0);
      n <= 1 && (b.status.Some? ==> n == 1)
  {
    match b.status
    case None =>
    case Some(s) =>
      match s
      case ACTIVE =>
      case COMPLETED =>
      case CANCELLED =>
  }

  // ------------------------------------------------------------------
  // Current and past bookings of a user
  // ------------------------------------------------------------------

  function EntryTimeOf(b: BookingRecord): Option<int> { b.entryTime }

  function ExitTimeOf(b: BookingRecord): Option<int> { b.exitTime }

  /** A row of `findCurrentBookingsByUserId`: the user's ACTIVE bookings, whatever their exit time. */
  predicate IsCurrentFor(b: BookingRecord, userId: int)
  {
    b.userId == Some(userId) && b.status == Some(ACTIVE)
  }

  function CurrentFor(userId: int): BookingRecord -> bool
  {
    (b: BookingRecord) => IsCurrentFor(b, userId)
  }

  /** `findCurrentBookingsByUserId(userId)`: exactly the user's ACTIVE bookings, latest entry first. */
  function FindCurrentBookingsByUserId(rows: seq<BookingRecord>, userId: int): (r: seq<BookingRecord>)
    ensures |r| == Count(rows, CurrentFor(userId))
    ensures forall i :: 0 <= i < |r| ==> r[i] in rows && IsCurrentFor(r[i], userId)
    ensures forall i :: 0 <= i < |rows| && IsCurrentFor(rows[i], userId) ==> rows[i] in r
    ensures SortedBy(r, EntryTimeOf, true)
  {
    var selected := Filter(rows, CurrentFor(userId));
    var r := SortBy(selected, EntryTimeOf, true);
    SortByMembers(selected, EntryTimeOf, true);
    r
  }

  /** A row counted by `countCurrentBookingsByUserId`: ACTIVE and without exit time. */
  predicate IsOpenFor(b: BookingRecord, userId: int)
  {
    b.userId == Some(userId) && b.exitTime.None? && b.status == Some(ACTIVE)
  }

  function OpenFor(userId: int): BookingRecord -> bool
  {
    (b: BookingRecord) => IsOpenFor(b, userId)
  }

  /** An ACTIVE booking of the user that already has an exit time (the state checkout leaves). */
  predicate IsCheckedOutFor(b: BookingRecord, userId: int)
  {
    b.userId == Some(userId) && b.exitTime.Some? && b.status == Some(ACTIVE)
  }

  function CheckedOutFor(userId: int): BookingRecord -> bool
  {
    (b: BookingRecord) => IsCheckedOutFor(b, userId)
  }

  /** `countCurrentBookingsByUserId(userId)`. */
  function CountCurrentBookingsByUserId(rows: seq<BookingRecord>, userId: int): nat
  {
    Count(rows, OpenFor(userId))
  }

  /** The current count misses exactly the current bookings that already have an exit time,
      so it falls below the length of the current list as soon as one exists. */
  lemma CurrentCountVersusList(rows: seq<BookingRecord>, userId: int)
    ensures CountCurrentBookingsByUserId(rows, userId) + Count(rows, CheckedOutFor(userId))
         == |FindCurrentBookingsByUserId(rows, userId)|
  {
    CountSplit(rows, CurrentFor(userId), (b: BookingRecord) => b.exitTime.None?, OpenFor(userId), CheckedOutFor(userId));
  }

  /** A row of `findPastBookingsByUserId`: exited, and a status that is present and not ACTIVE. */
  predicate IsPastFor(b: BookingRecord, userId: int)
  {
    b.userId == Some(userId) && b.exitTime.Some? && b.status.Some? && b.status.value != ACTIVE
  }

  function PastFor(userId: int): BookingRecord -> bool
  {
    (b: BookingRecord) => IsPastFor(b, userId)
  }

  /** `findPastBookingsByUserId(userId)`: exactly the user's past bookings, latest exit first. */
  function FindPastBookingsByUserId(rows: seq<BookingRecord>, userId: int): (r: seq<BookingRecord>)
    ensures |r| == Count(rows, PastFor(userId))
    ensures forall i :: 0 <= i < |r| ==> r[i] in rows && IsPastFor(r[i], userId)
    ensures forall i :: 0 <= i < |rows| && IsPastFor(rows[i], userId) ==> rows[i] in r
    ensures SortedBy(r, ExitTimeOf, true)
  {
    var selected := Filter(rows, PastFor(userId));
    var r := SortBy(selected, ExitTimeOf, true);
    SortByMembers(selected, ExitTimeOf, true);
    r
  }

  /** A row counted by `countPastBookingsByUserId`: any booking of the user with an exit time. */
  predicate HasExitFor(b: BookingRecord, userId: int)
  {
    b.userId == Some(userId) && b.exitTime.Some?
  }

  function ExitedFor(userId: int): BookingRecord -> bool
  {
    (b: BookingRecord) => HasExitFor(b, userId)
  }

  /** An exited booking of the user that the past list leaves out: ACTIVE or without status. */
  predicate IsExitedNotPastFor(b: BookingRecord, userId: int)
  {
    b.userId == Some(userId) && b.exitTime.Some? && (b.status.None? || b.status.value == ACTIVE)
  }

  function ExitedNotPastFor(userId: int): BookingRecord -> bool
  {
    (b: BookingRecord) => IsExitedNotPastFor(b, userId)
  }

  /** `countPastBookingsByUserId(userId)`. */
  function CountPastBookingsByUserId(rows: seq<BookingRecord>, userId: int): nat
  {
    Count(rows, ExitedFor(userId))
  }

  /** The past count also counts the exited bookings that are ACTIVE or have no status, so it
      exceeds the length of the past list by exactly their number. */
  lemma PastCountVersusList(rows: seq<BookingRecord>, userId: int)
    ensures |FindPastBookingsByUserId(rows, userId)| + Count(rows, ExitedNotPastFor(userId))
         == CountPastBookingsByUserId(rows, userId)
  {
    CountSplit(rows, ExitedFor(userId), (b: BookingRecord) => b.status.Some? && b.status.value != ACTIVE,
               PastFor(userId), ExitedNotPastFor(userId));
  }
}
