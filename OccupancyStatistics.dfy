/** Occupancy statistics of one location: its current slot counts, the time series of data
    points cut into hourly, daily or weekly buckets, the aggregates over that series, the
    usage trends of a period and the all-time peak hour. Instants are minutes (minute 0 is a
    Monday, 00:00), so a calendar day is a run of 1440 minutes. */
module OccupancyStatistics {
  import opened Common
  import opened Entities
  import opened Repository
  import opened Stores
  import SlotService
  import ReportService

  const MinutesPerWeek: int := 7 * MinutesPerDay

  // ------------------------------------------------------------------
  // Current slot counts
  // ------------------------------------------------------------------

  /** The current counts of a location's slots. */
  datatype SlotCounts = SlotCounts(
    totalSlots: nat,
    currentlyOccupied: nat,
    currentlyAvailable: int,
    currentOccupancyPercentage: real)

  /** `(double) part / whole * 100`, or 0 when `whole` is 0. */
  function Percentage(part: nat, whole: nat): (p: real)
    ensures whole == 0 ==> p == 0.0
    ensures whole > 0 ==> p * whole as real == part as real * 100.0
    ensures part <= whole ==> 0.0 <= p <= 100.0
  {
    if whole > 0 then part as real / whole as real * 100.0 else 0.0
  }

  /** The counts `getOccupancyStatistics` reports for the slots of a location: occupied means
      neither available nor disabled, and the available ones are what remains after taking
      away the occupied and the disabled ones. */
  function CurrentCounts(slots: seq<SlotRecord>): (c: SlotCounts)
    ensures c.totalSlots == |slots|
    ensures c.currentlyOccupied == Count(slots, ReportService.IsOccupied) <= c.totalSlots
    ensures 0.0 <= c.currentOccupancyPercentage <= 100.0
    ensures c.totalSlots == 0 ==> c.currentOccupancyPercentage == 0.0
    ensures c.totalSlots > 0 ==>
      c.currentOccupancyPercentage * c.totalSlots as real == c.currentlyOccupied as real * 100.0
  {
    var total := |slots|;
    var occupied := Count(slots, ReportService.IsOccupied);
    var disabled := Count(slots, SlotService.IsDisabled);
    SlotCounts(total, occupied, total - occupied - disabled, Percentage(occupied, total))
  }

  /** What remains after the occupied and the disabled slots are exactly the bookable slots
      (available and not disabled): a slot that is available but disabled counts as
      disabled, never as available. At a location this is the count `SlotService` reports. */
  lemma CurrentlyAvailableIsBookable(t: Tables, locationId: int)
    ensures var c := CurrentCounts(SlotService.SlotsByLocation(t, locationId));
      c.currentlyAvailable == Count(SlotService.SlotsByLocation(t, locationId), SlotService.IsBookable) &&
      c.currentlyAvailable == SlotService.AvailableSlotCountByLocation(t, locationId) &&
      c.currentlyAvailable >= 0
  {
    var u := ReportService.Utilization(SlotService.SlotsByLocation(t, locationId));
  }

  // ------------------------------------------------------------------
  // The bookings of a location
  // ------------------------------------------------------------------

  function SlotIdOf(s: SlotRecord): Option<int> { s.id }

  /** `filterBookingsByLocation`: the bookings whose slot id is among the ids of the
      location's slots, in their order. A null slot id matches a slot with a null id. */
  function BookingsAtLocation(t: Tables, rows: seq<BookingRecord>, locationId: int): (r: seq<BookingRecord>)
    ensures |r| <= |rows|
  {
    var ids := Map(SlotService.SlotsByLocation(t, locationId), SlotIdOf);
    Filter(rows, (b: BookingRecord) => b.slotId in ids)
  }

  /** A booking is kept exactly when it is one of the rows and some slot of the location has
      its slot id. */
  lemma BookingsAtLocationMembers(t: Tables, rows: seq<BookingRecord>, locationId: int)
    ensures forall b :: b in BookingsAtLocation(t, rows, locationId) <==>
      b in rows && exists i :: 0 <= i < |t.slots| && t.slots[i].locationId == Some(locationId) && t.slots[i].id == b.slotId
  {
    var ids := Map(SlotService.SlotsByLocation(t, locationId), SlotIdOf);
    FilterMembers(rows, (b: BookingRecord) => b.slotId in ids);
    forall b: BookingRecord
      ensures b.slotId in ids <==>
        exists i :: 0 <= i < |t.slots| && t.slots[i].locationId == Some(locationId) && t.slots[i].id == b.slotId
    {
      LocationSlotId(t, locationId, b.slotId);
    }
  }

  /** An id is one of the location's slot ids exactly when a slot of the location has it. */
  lemma LocationSlotId(t: Tables, locationId: int, id: Option<int>)
    ensures id in Map(SlotService.SlotsByLocation(t, locationId), SlotIdOf) <==>
      exists i :: 0 <= i < |t.slots| && t.slots[i].locationId == Some(locationId) && t.slots[i].id == id
  {
    if id in Map(SlotService.SlotsByLocation(t, locationId), SlotIdOf) {
      LocationSlotIdFound(t, locationId, id);
    }
    if exists i :: 0 <= i < |t.slots| && t.slots[i].locationId == Some(locationId) && t.slots[i].id == id {
      var i :| 0 <= i < |t.slots| && t.slots[i].locationId == Some(locationId) && t.slots[i].id == id;
      LocationSlotIdListed(t, locationId, i);
    }
  }

  lemma LocationSlotIdFound(t: Tables, locationId: int, id: Option<int>)
    requires id in Map(SlotService.SlotsByLocation(t, locationId), SlotIdOf)
    ensures exists i :: 0 <= i < |t.slots| && t.slots[i].locationId == Some(locationId) && t.slots[i].id == id
  {
    var slots := SlotService.SlotsByLocation(t, locationId);
    var ids := Map(slots, SlotIdOf);
    var j :| 0 <= j < |ids| && ids[j] == id;
    assert slots[j].id == id && slots[j].locationId == Some(locationId);
    assert slots[j] in t.slots;
    var i :| 0 <= i < |t.slots| && t.slots[i] == slots[j];
    assert t.slots[i].locationId == Some(locationId) && t.slots[i].id == id;
  }

  lemma LocationSlotIdListed(t: Tables, locationId: int, i: int)
    requires 0 <= i < |t.slots| && t.slots[i].locationId == Some(locationId)
    ensures t.slots[i].id in Map(SlotService.SlotsByLocation(t, locationId), SlotIdOf)
  {
    var slots := SlotService.SlotsByLocation(t, locationId);
    var ids := Map(slots, SlotIdOf);
    assert t.slots[i] in slots;
    var j :| 0 <= j < |slots| && slots[j] == t.slots[i];
    assert ids[j] == t.slots[i].id;
  }


  // ------------------------------------------------------------------
  // Counts over a period
  // ------------------------------------------------------------------

  /** The test of `countOccupiedSlots(bookings, start, end)`: both times present and the stay
      [entry, exit] meets [start, end], ends included. */
  predicate OverlapsInclusive(b: BookingRecord, start: int, end: int)
  {
    b.entryTime.Some? && b.exitTime.Some? && b.entryTime.value <= end && b.exitTime.value >= start
  }

  function OccupiedIn(rows: seq<BookingRecord>, start: int, end: int): nat
  {
    Count(rows, (b: BookingRecord) => OverlapsInclusive(b, start, end))
  }

  /** The per-bucket booking test: the entry lies strictly inside (start, end). */
  predicate EnteredStrictlyWithin(b: BookingRecord, start: int, end: int)
  {
    b.entryTime.Some? && start < b.entryTime.value < end
  }

  function EnteredIn(rows: seq<BookingRecord>, start: int, end: int): nat
  {
    Count(rows, (b: BookingRecord) => EnteredStrictlyWithin(b, start, end))
  }

  predicate EnteredAtMinute(b: BookingRecord, t: int)
  {
    b.entryTime == Some(t)
  }

  /** The occupancy overlap includes both ends, unlike the strict window of the conflict
      query: every booking with an exit that conflicts with [start, end) is counted, and a
      booking that left exactly at `start` is counted although it conflicts with nothing. */
  lemma OverlapVersusConflict(b: BookingRecord, slotId: int, start: int, end: int)
    ensures ConflictsWith(b, slotId, start, end) && b.exitTime.Some? ==> OverlapsInclusive(b, start, end)
    ensures b.entryTime.Some? && b.entryTime.value <= end && b.exitTime == Some(start) ==>
      OverlapsInclusive(b, start, end) && !ConflictsWith(b, slotId, start, end)
  {
  }

  /** Widening the period never lowers the occupied count. */
  lemma OccupiedMonotone(rows: seq<BookingRecord>, start: int, end: int, start': int, end': int)
    requires start' <= start && end <= end'
    ensures OccupiedIn(rows, start, end) <= OccupiedIn(rows, start', end')
  {
    CountMonotone(rows, (b: BookingRecord) => OverlapsInclusive(b, start, end),
                        (b: BookingRecord) => OverlapsInclusive(b, start', end'));
  }

  /** Two adjacent buckets count every entry of their union except those made exactly at
      the minute where they meet: the strict bounds drop those. */
  lemma AdjacentBucketsMissBoundary(rows: seq<BookingRecord>, s: int, e: int, f: int)
    requires s < e < f
    ensures EnteredIn(rows, s, e) + EnteredIn(rows, e, f) + Count(rows, (b: BookingRecord) => EnteredAtMinute(b, e))
            == EnteredIn(rows, s, f)
  {
    var whole := (b: BookingRecord) => EnteredStrictlyWithin(b, s, f);
    var before := (b: BookingRecord) => b.entryTime.Some? && b.entryTime.value < e;
    var left := (b: BookingRecord) => EnteredStrictlyWithin(b, s, e);
    var rest := (b: BookingRecord) => b.entryTime.Some? && e <= b.entryTime.value < f;
    var at := (b: BookingRecord) => EnteredAtMinute(b, e);
    var right := (b: BookingRecord) => EnteredStrictlyWithin(b, e, f);
    CountSplit(rows, whole, before, left, rest);
    CountSplit(rows, rest, at, at, right);
  }

  // ------------------------------------------------------------------
  // Data points
  // ------------------------------------------------------------------

  /** An `OccupancyDataPoint`; its label, a rendering of the period start, is kept as the
      period start itself. */
  datatype DataPoint = DataPoint(periodStart: int, totalSlots: int, occupiedSlots: nat, bookingsCount: nat)

  function PointFor(rows: seq<BookingRecord>, totalSlots: int, start: int, end: int): DataPoint
  {
    DataPoint(start, totalSlots, OccupiedIn(rows, start, end), EnteredIn(rows, start, end))
  }

  /** The points of consecutive buckets of `width` minutes from `cursor` on, one for each
      bucket that starts before `limit`. */
  function Buckets(rows: seq<BookingRecord>, totalSlots: int, cursor: int, width: int, limit: int): seq<DataPoint>
    requires width > 0
    decreases limit - cursor
  {
    if cursor < limit then [PointFor(rows, totalSlots, cursor, cursor + width)] + Buckets(rows, totalSlots, cursor + width, width, limit)
    else []
  }

  function BucketStart(first: int, width: int, i: int): int
  {
    first + width * i
  }

  /** The buckets tile [first, limit) without gaps: bucket `i` covers the `width` minutes
      from `first + width * i`, there are buckets exactly when `first < limit`, and the last
      one starts before `limit` and reaches it. */
  lemma {:induction false} BucketsTile(rows: seq<BookingRecord>, totalSlots: int, first: int, width: int, limit: int)
    requires width > 0
    ensures var r := Buckets(rows, totalSlots, first, width, limit);
      (forall i :: 0 <= i < |r| ==>
         r[i] == PointFor(rows, totalSlots, BucketStart(first, width, i), BucketStart(first, width, i) + width)) &&
      (|r| > 0 <==> first < limit) &&
      (|r| > 0 ==> BucketStart(first, width, |r| - 1) < limit <= BucketStart(first, width, |r|))
    decreases limit - first
  {
    var r := Buckets(rows, totalSlots, first, width, limit);
    if first < limit {
      var next := first + width;
      var tail := Buckets(rows, totalSlots, next, width, limit);
      BucketsTile(rows, totalSlots, next, width, limit);
      assert r == [PointFor(rows, totalSlots, first, first + width)] + tail;
      forall i | 0 <= i < |r|
        ensures r[i] == PointFor(rows, totalSlots, BucketStart(first, width, i), BucketStart(first, width, i) + width)
      {
        if i > 0 {
          assert r[i] == tail[i - 1];
          BucketStartShift(first, width, i);
        }
      }
      BucketStartShift(first, width, |r|);
      BucketStartShift(first, width, |r| - 1);
      if tail == [] {
        assert BucketStart(first, width, 0) == first;
      }
    }
  }

  lemma BucketStartShift(first: int, width: int, i: int)
    ensures BucketStart(first + width, width, i - 1) == BucketStart(first, width, i)
  {
    assert width * (i - 1) + width == width * i;
  }

  /** The hourly loop emits `ceil((end - start) / 60)` buckets, none when `start >= end`. */
  lemma {:induction false} HourlyBucketCount(rows: seq<BookingRecord>, totalSlots: int, start: int, end: int)
    ensures |Buckets(rows, totalSlots, start, MinutesPerHour, end)| ==
      if start < end then (end - start + MinutesPerHour - 1) / MinutesPerHour else 0
    decreases end - start
  {
    if start < end {
      HourlyBucketCount(rows, totalSlots, start + MinutesPerHour, end);
    }
  }

  /** The day-by-day loop from day `startDay` with a step of `step` days, while the day is
      not after `endDay`, emits `(endDay - startDay) / step + 1` buckets, none when the start
      day is after the end day. */
  lemma {:induction false} DayBucketCount(rows: seq<BookingRecord>, totalSlots: int, startDay: int, endDay: int, step: int)
    requires step == 1 || step == 7
    ensures |Buckets(rows, totalSlots, startDay * MinutesPerDay, step * MinutesPerDay, (endDay + 1) * MinutesPerDay)| ==
      if startDay <= endDay then (endDay - startDay) / step + 1 else 0
    decreases endDay - startDay
  {
    if startDay <= endDay {
      assert startDay * MinutesPerDay + step * MinutesPerDay == (startDay + step) * MinutesPerDay;
      DayBucketCount(rows, totalSlots, startDay + step, endDay, step);
    }
  }

  /** `generateHourlyDataPoints`: one-hour buckets from `start` while the bucket start is
      before `end`. */
  method HourlyDataPoints(rows: seq<BookingRecord>, totalSlots: int, start: int, end: int) returns (points: seq<DataPoint>)
    ensures points == Buckets(rows, totalSlots, start, MinutesPerHour, end)
  {
    points := [];
    var current := start;
    while current < end
      invariant points + Buckets(rows, totalSlots, current, MinutesPerHour, end) == Buckets(rows, totalSlots, start, MinutesPerHour, end)
      decreases end - current
    {
      var hourEnd := current + MinutesPerHour;
      var point := DataPoint(current, totalSlots, OccupiedIn(rows, current, hourEnd), EnteredIn(rows, current, hourEnd));
      BucketsStep(points, rows, totalSlots, start, current, MinutesPerHour, end);
      points := points + [point];
      current := hourEnd;
    }
  }

  /** The calendar day of an instant (`toLocalDate()`), counted from day 0. */
  function DayOf(t: int): int
  {
    t / MinutesPerDay
  }

  /** `generateDailyDataPoints` (`step` 1) and `generateWeeklyDataPoints` (`step` 7): from
      the start date, while the date is not after the end date, a bucket of `step` days from
      the start of the date, then `step` days on. */
  method CalendarDataPoints(rows: seq<BookingRecord>, totalSlots: int, start: int, end: int, step: int)
    returns (points: seq<DataPoint>)
    requires step == 1 || step == 7
    ensures points == Buckets(rows, totalSlots, DayOf(start) * MinutesPerDay, step * MinutesPerDay, (DayOf(end) + 1) * MinutesPerDay)
  {
    var width := step * MinutesPerDay;
    var limit := (DayOf(end) + 1) * MinutesPerDay;
    points := [];
    var currentDate := DayOf(start);
    var endDate := DayOf(end);
    while currentDate <= endDate
      invariant points + Buckets(rows, totalSlots, currentDate * MinutesPerDay, width, limit)
                == Buckets(rows, totalSlots, DayOf(start) * MinutesPerDay, width, limit)
      decreases endDate - currentDate
    {
      var periodStart := currentDate * MinutesPerDay;
      var periodEnd := periodStart + width;
      var point := DataPoint(periodStart, totalSlots, OccupiedIn(rows, periodStart, periodEnd), EnteredIn(rows, periodStart, periodEnd));
      assert periodEnd == (currentDate + step) * MinutesPerDay;
      BucketsStep(points, rows, totalSlots, DayOf(start) * MinutesPerDay, periodStart, width, limit);
      points := points + [point];
      currentDate := currentDate + step;
    }
  }

  /** One step of a bucket loop: emitting the bucket at `cursor` and moving on keeps the
      emitted points followed by the remaining buckets equal to all the buckets. */
  lemma BucketsStep(points: seq<DataPoint>, rows: seq<BookingRecord>, totalSlots: int, first: int, cursor: int,
                    width: int, limit: int)
    requires width > 0 && cursor < limit
    requires points + Buckets(rows, totalSlots, cursor, width, limit) == Buckets(rows, totalSlots, first, width, limit)
    ensures (points + [PointFor(rows, totalSlots, cursor, cursor + width)]) + Buckets(rows, totalSlots, cursor + width, width, limit)
            == Buckets(rows, totalSlots, first, width, limit)
  {
    ConcatAssociates(points, [PointFor(rows, totalSlots, cursor, cursor + width)],
                     Buckets(rows, totalSlots, cursor + width, width, limit));
  }

  /** The granularities `generateDataPoints` recognises. */
  datatype Granularity = Hourly | Daily | Weekly | Monthly | Unrecognised

  function GranularityName(g: Granularity): string
  {
    match g
    case Hourly => "HOURLY"
    case Daily => "DAILY"
    case Weekly => "WEEKLY"
    case Monthly => "MONTHLY"
    case Unrecognised => ""
  }

  /** The branch of `generateDataPoints` a granularity takes: the first of HOURLY, DAILY,
      WEEKLY and MONTHLY it equals ignoring case; a null granularity matches none. */
  function ParseGranularity(g: Option<string>): (r: Granularity)
    ensures r != Unrecognised ==> g.Some? && EqualsIgnoreCase(g.value, GranularityName(r))
    ensures r == Unrecognised <==>
      g.None? || forall k: Granularity :: k != Unrecognised ==> !EqualsIgnoreCase(g.value, GranularityName(k))
  {
    if g.None? then Unrecognised
    else if EqualsIgnoreCase("HOURLY", g.value) then Hourly
    else if EqualsIgnoreCase("DAILY", g.value) then Daily
    else if EqualsIgnoreCase("WEEKLY", g.value) then Weekly
    else if EqualsIgnoreCase("MONTHLY", g.value) then Monthly
    else Unrecognised
  }

  /** The four trend endpoints pass their own granularity, which is recognised whatever its
      case, and other text is not. */
  lemma GranularityNames()
    ensures ParseGranularity(Some("HOURLY")) == Hourly && ParseGranularity(Some("hourly")) == Hourly
    ensures ParseGranularity(Some("DAILY")) == Daily && ParseGranularity(Some("WEEKLY")) == Weekly
    ensures ParseGranularity(Some("MONTHLY")) == Monthly
    ensures ParseGranularity(Some("YEARLY")) == Unrecognised && ParseGranularity(None) == Unrecognised
  {
    assert ToUpper("hourly") == "HOURLY";
    assert ToUpper("YEARLY")[0] == 'Y';
    assert ToUpper("HOURLY")[0] == 'H' && ToUpper("WEEKLY")[0] == 'W';
  }

  /** `generateDataPoints`: the series for the granularity. Monthly buckets depend on month
      lengths and are given as `monthlyPoints`; an unrecognised granularity gives no points. */
  method GenerateDataPoints(rows: seq<BookingRecord>, totalSlots: int, granularity: Option<string>,
                            start: int, end: int, monthlyPoints: seq<DataPoint>) returns (points: seq<DataPoint>)
    ensures ParseGranularity(granularity) == Hourly ==> points == Buckets(rows, totalSlots, start, MinutesPerHour, end)
    ensures ParseGranularity(granularity) == Daily ==>
      points == Buckets(rows, totalSlots, DayOf(start) * MinutesPerDay, MinutesPerDay, (DayOf(end) + 1) * MinutesPerDay)
    ensures ParseGranularity(granularity) == Weekly ==>
      points == Buckets(rows, totalSlots, DayOf(start) * MinutesPerDay, MinutesPerWeek, (DayOf(end) + 1) * MinutesPerDay)
    ensures ParseGranularity(granularity) == Monthly ==> points == monthlyPoints
    ensures ParseGranularity(granularity) == Unrecognised ==> points == []
  {
    points := [];
    var g := ParseGranularity(granularity);
    if g == Hourly {
      points := HourlyDataPoints(rows, totalSlots, start, end);
    } else if g == Daily {
      points := CalendarDataPoints(rows, totalSlots, start, end, 1);
    } else if g == Weekly {
      points := CalendarDataPoints(rows, totalSlots, start, end, 7);
    } else if g == Monthly {
      points := monthlyPoints;
    }
  }

  // ------------------------------------------------------------------
  // Aggregates
  // ------------------------------------------------------------------

  function Identity(x: real): real { x }

  /** `DoubleStream.average()` of a non-empty stream, exactly. */
  function Average(s: seq<real>): real
    requires s != []
  {
    Sum(s, Identity) / |s| as real
  }

  /** The average of a non-empty series lies between its least and its greatest value. */
  lemma AverageBetweenExtremes(s: seq<real>)
    requires s != []
    ensures MinOf(s) <= Average(s) <= MaxOf(s)
  {
    AverageBounds(s, MinOf(s), MaxOf(s));
  }

  /** The average of values within [lo, hi] is within [lo, hi]. */
  lemma AverageBounds(s: seq<real>, lo: real, hi: real)
    requires s != []
    requires forall i :: 0 <= i < |s| ==> lo <= s[i] <= hi
    ensures lo <= Average(s) <= hi
  {
    MeanBounds(s, Identity, lo, hi);
  }

  predicate HasBothTimes(b: BookingRecord)
  {
    b.entryTime.Some? && b.exitTime.Some?
  }

  function StayMinutes(b: BookingRecord): real
  {
    if HasBothTimes(b) then (b.exitTime.value - b.entryTime.value) as real else 0.0
  }

  /** The mean stay, in minutes, of the bookings with both times (a stay that ends before
      it starts included); 0 without any. */
  function AverageStay(rows: seq<BookingRecord>): (r: real)
    ensures Count(rows, HasBothTimes) == 0 ==> r == 0.0
  {
    var stays := Filter(rows, HasBothTimes);
    if |stays| > 0 then Sum(stays, StayMinutes) / |stays| as real else 0.0
  }

  predicate HasFee(b: BookingRecord)
  {
    b.parkingFee.Some?
  }

  /** The period's revenue here: every fee that is set, whatever the booking's status. */
  function PeriodRevenue(rows: seq<BookingRecord>): real
  {
    Sum(Filter(rows, HasFee), FeeOrZero)
  }

  lemma PeriodRevenueByRow(rows: seq<BookingRecord>)
    requires rows != []
    ensures PeriodRevenue(rows) == FeeOrZero(rows[0]) + PeriodRevenue(rows[1..])
  {
    assert Filter(rows, HasFee) == (if HasFee(rows[0]) then [rows[0]] else []) + Filter(rows[1..], HasFee);
    SumAppend(if HasFee(rows[0]) then [rows[0]] else [], Filter(rows[1..], HasFee), FeeOrZero);
  }

  /** While no fee is negative, the period revenue, which adds the fees of bookings in every
      status, is at least the repository's revenue, which adds only COMPLETED ones; the two
      agree when every booking with a fee is COMPLETED. */
  lemma {:induction false} PeriodRevenueCoversCompleted(rows: seq<BookingRecord>)
    requires forall i :: 0 <= i < |rows| ==> FeeOrZero(rows[i]) >= 0.0
    ensures PeriodRevenue(rows) >= TotalRevenue(rows)
    ensures (forall i :: 0 <= i < |rows| && HasFee(rows[i]) ==> rows[i].status == Some(COMPLETED)) ==>
      PeriodRevenue(rows) == TotalRevenue(rows)
    decreases |rows|
  {
    if rows != [] {
      PeriodRevenueByRow(rows);
      TotalRevenueByRow(rows);
      PeriodRevenueCoversCompleted(rows[1..]);
    }
  }

  /** What `calculateAggregateStatistics` sets. On an empty series it sets the average and
      the peak to 0 and returns before setting anything else (`None`). */
  datatype Aggregates = Aggregates(
    averageOccupancyPercentage: real,
    peakOccupancyPercentage: real,
    totalBookingsInPeriod: Option<nat>,
    averageSessionDurationMinutes: Option<real>,
    totalRevenueInPeriod: Option<real>)

  /** `calculateAggregateStatistics` for a series whose points have the percentages
      `percentage` gives (the data-point class derives them). */
  function AggregateStatistics(points: seq<DataPoint>, percentage: DataPoint -> real, rows: seq<BookingRecord>): (a: Aggregates)
    ensures points == [] ==> a == Aggregates(0.0, 0.0, None, None, None)
    ensures points != [] ==>
      a.totalBookingsInPeriod == Some(|rows|) &&
      a.averageSessionDurationMinutes == Some(AverageStay(rows)) &&
      a.totalRevenueInPeriod == Some(PeriodRevenue(rows))
  {
    if points == [] then Aggregates(0.0, 0.0, None, None, None)
    else
      var pcts := Map(points, percentage);
      Aggregates(Average(pcts), MaxOf(pcts), Some(|rows|), Some(AverageStay(rows)), Some(PeriodRevenue(rows)))
  }

  /** On a non-empty series the peak is the highest percentage of any point and is reached by
      one, and the average lies between the lowest percentage and the peak. */
  lemma AggregatePeakAndAverage(points: seq<DataPoint>, percentage: DataPoint -> real, rows: seq<BookingRecord>)
    requires points != []
    ensures var a := AggregateStatistics(points, percentage, rows);
      (forall i :: 0 <= i < |points| ==> percentage(points[i]) <= a.peakOccupancyPercentage) &&
      (exists i :: 0 <= i < |points| && percentage(points[i]) == a.peakOccupancyPercentage) &&
      (exists i :: 0 <= i < |points| && percentage(points[i]) <= a.averageOccupancyPercentage) &&
      a.averageOccupancyPercentage <= a.peakOccupancyPercentage
  {
    var pcts := Map(points, percentage);
    AverageBetweenExtremes(pcts);
    var k :| 0 <= k < |pcts| && pcts[k] == MaxOf(pcts);
    var j :| 0 <= j < |pcts| && pcts[j] == MinOf(pcts);
    assert percentage(points[k]) == MaxOf(pcts);
    assert percentage(points[j]) == MinOf(pcts);
  }

  // ------------------------------------------------------------------
  // getOccupancyStatistics
  // ------------------------------------------------------------------

  datatype StatisticsError = LocationNotFound

  /** The statistics response, without its fetch time. */
  datatype OccupancyStatisticsResponse = OccupancyStatisticsResponse(
    locationId: int,
    locationName: Option<string>,
    counts: SlotCounts,
    timeGranularity: Option<string>,
    dataPoints: seq<DataPoint>,
    aggregates: Aggregates)

  /** The bookings the statistics of a location are taken over: those that entered within
      [start, end] on one of the location's slots. */
  function PeriodBookings(t: Tables, locationId: int, start: int, end: int): seq<BookingRecord>
  {
    BookingsAtLocation(t, FindBookingsByDateRange(t.bookings, start, end), locationId)
  }

  /** `getOccupancyStatistics(locationId, startDate, endDate, timeGranularity)`: fails when
      the location does not exist; otherwise the current counts of its slots, the series for
      the granularity and the aggregates over it. It changes nothing. */
  method GetOccupancyStatistics(store: ParkingStore, locationId: int, start: int, end: int, granularity: Option<string>,
                                percentage: DataPoint -> real, monthlyPoints: seq<DataPoint>)
    returns (r: Result<OccupancyStatisticsResponse, StatisticsError>)
    ensures r.Err? <==> locationId !in store.locations
    ensures r.Ok? ==>
      var t := store.State();
      var rows := PeriodBookings(t, locationId, start, end);
      var totalSlots := |SlotService.SlotsByLocation(t, locationId)|;
      r.value.locationId == locationId &&
      r.value.locationName == store.locations[locationId] &&
      r.value.counts == CurrentCounts(SlotService.SlotsByLocation(t, locationId)) &&
      r.value.timeGranularity == granularity &&
      (ParseGranularity(granularity) == Hourly ==> r.value.dataPoints == Buckets(rows, totalSlots, start, MinutesPerHour, end)) &&
      (ParseGranularity(granularity) == Daily ==>
         r.value.dataPoints ==
         Buckets(rows, totalSlots, DayOf(start) * MinutesPerDay, MinutesPerDay, (DayOf(end) + 1) * MinutesPerDay)) &&
      (ParseGranularity(granularity) == Weekly ==>
         r.value.dataPoints ==
         Buckets(rows, totalSlots, DayOf(start) * MinutesPerDay, MinutesPerWeek, (DayOf(end) + 1) * MinutesPerDay)) &&
      (ParseGranularity(granularity) == Monthly ==> r.value.dataPoints == monthlyPoints) &&
      (ParseGranularity(granularity) == Unrecognised ==> r.value.dataPoints == []) &&
      r.value.aggregates == AggregateStatistics(r.value.dataPoints, percentage, rows)
  {
    if locationId !in store.locations {
      return Err(LocationNotFound);
    }
    var t := store.State();
    var slots := SlotService.SlotsByLocation(t, locationId);
    var counts := CurrentCounts(slots);
    var locationBookings := PeriodBookings(t, locationId, start, end);
    var points := GenerateDataPoints(locationBookings, |slots|, granularity, start, end, monthlyPoints);
    var aggregates := AggregateStatistics(points, percentage, locationBookings);
    r := Ok(OccupancyStatisticsResponse(locationId, store.locations[locationId], counts, granularity, points, aggregates));
  }

  // ------------------------------------------------------------------
  // getUsageTrends
  // ------------------------------------------------------------------

  datatype UsageTrends = UsageTrends(
    locationId: int,
    periodStart: int,
    periodEnd: int,
    totalBookings: nat,
    completedBookings: nat,
    cancelledBookings: nat,
    averageDurationMinutes: real,
    totalRevenue: real,
    completionRate: real)

  /** The trends `getUsageTrends` reports for the bookings `rows` of a period. */
  function TrendsOver(locationId: int, start: int, end: int, rows: seq<BookingRecord>): UsageTrends
  {
    var completed := CountByStatus(rows, COMPLETED);
    var cancelled := CountByStatus(rows, CANCELLED);
    UsageTrends(locationId, start, end, |rows|, completed, cancelled, AverageStay(rows), PeriodRevenue(rows),
      Percentage(completed, |rows|))
  }

  /** `getUsageTrends(locationId, startDate, endDate)`: the trends over the bookings that
      entered within [start, end] on one of the location's slots. */
  function UsageTrendsOf(t: Tables, locationId: int, start: int, end: int): UsageTrends
  {
    TrendsOver(locationId, start, end, PeriodBookings(t, locationId, start, end))
  }

  /** The trends count the period's bookings, its COMPLETED and its CANCELLED ones, which are
      distinct bookings, add every fee that is set, and give the completed share as a
      percentage (0 for an empty period). */
  lemma UsageTrendsBounds(locationId: int, start: int, end: int, rows: seq<BookingRecord>)
    ensures var u := TrendsOver(locationId, start, end, rows);
      u.totalBookings == |rows| &&
      u.completedBookings == CountByStatus(rows, COMPLETED) &&
      u.cancelledBookings == CountByStatus(rows, CANCELLED) &&
      u.completedBookings + u.cancelledBookings <= u.totalBookings &&
      u.totalRevenue == PeriodRevenue(rows) &&
      0.0 <= u.completionRate <= 100.0 &&
      (u.totalBookings == 0 ==> u.completionRate == 0.0) &&
      u.completionRate == Percentage(u.completedBookings, u.totalBookings)
  {
    CountDisjoint(rows, WithStatus(COMPLETED), WithStatus(CANCELLED));
  }

  // ------------------------------------------------------------------
  // getPeakHours
  // ------------------------------------------------------------------

  datatype PeakHours = PeakHours(peakHour: int, bookingsAtPeakHour: nat, hourlyBreakdown: map<int, nat>)

  predicate HasSlot(b: BookingRecord)
  {
    b.slotId.Some?
  }

  /** The `hourlyCount` map: each hour at which some booking entered, with how many did. */
  function HourlyCounts(rows: seq<BookingRecord>): (m: map<int, nat>)
    ensures forall h :: h in m <==> 0 <= h < 24 && Count(rows, ReportService.EnteredAtHour(h)) > 0
    ensures forall h :: h in m ==> m[h] == Count(rows, ReportService.EnteredAtHour(h))
  {
    map h | 0 <= h < 24 && Count(rows, ReportService.EnteredAtHour(h)) > 0 :: Count(rows, ReportService.EnteredAtHour(h))
  }

  /** The hour below `n` with the most bookings, the earliest among equals, or -1 when no
      hour below `n` has any. */
  function PeakHourBelow(counts: map<int, nat>, n: int): (r: int)
    requires 0 <= n
    ensures r == -1 <==> forall h :: 0 <= h < n ==> h !in counts
    ensures r != -1 ==> 0 <= r < n && r in counts && forall h :: 0 <= h < n && h in counts ==> counts[h] <= counts[r]
    decreases n
  {
    if n == 0 then -1
    else
      var best := PeakHourBelow(counts, n - 1);
      if n - 1 in counts && (best == -1 || counts[n - 1] > counts[best]) then n - 1 else best
  }

  /** `getPeakHours(locationId)`: over every booking with a slot, whatever its location. */
  function GetPeakHours(t: Tables): (r: PeakHours)
    ensures r.hourlyBreakdown == HourlyCounts(Filter(t.bookings, HasSlot))
    ensures r.peakHour == -1 ==> r.bookingsAtPeakHour == 0
    ensures r.peakHour != -1 ==>
      0 <= r.peakHour < 24 && r.peakHour in r.hourlyBreakdown &&
      r.bookingsAtPeakHour == r.hourlyBreakdown[r.peakHour] &&
      forall h :: h in r.hourlyBreakdown ==> r.hourlyBreakdown[h] <= r.bookingsAtPeakHour
  {
    var counts := HourlyCounts(Filter(t.bookings, HasSlot));
    var peak := PeakHourBelow(counts, 24);
    PeakHours(peak, if peak >= 0 then counts[peak] else 0, counts)
  }

  /** The peak hour is -1 exactly when no booking with a slot has an entry time. */
  lemma NoPeakHourIffNoEntries(t: Tables)
    ensures GetPeakHours(t).peakHour == -1 <==>
      forall i :: 0 <= i < |t.bookings| ==> t.bookings[i].slotId.None? || t.bookings[i].entryTime.None?
  {
    var rows := Filter(t.bookings, HasSlot);
    NoPeakIffNoEntry(rows);
    assert GetPeakHours(t).peakHour == PeakHourBelow(HourlyCounts(rows), 24);
    SlotBookingsWithoutEntry(t.bookings);
  }

  /** The bookings with a slot have no entry time exactly when every booking lacks one of the two. */
  lemma SlotBookingsWithoutEntry(bookings: seq<BookingRecord>)
    ensures (forall j :: 0 <= j < |Filter(bookings, HasSlot)| ==> Filter(bookings, HasSlot)[j].entryTime.None?) <==>
      forall i :: 0 <= i < |bookings| ==> bookings[i].slotId.None? || bookings[i].entryTime.None?
  {
    var rows := Filter(bookings, HasSlot);
    FilterMembers(bookings, HasSlot);
    if forall j :: 0 <= j < |rows| ==> rows[j].entryTime.None? {
      forall i | 0 <= i < |bookings| && bookings[i].slotId.Some?
        ensures bookings[i].entryTime.None?
      {
        assert HasSlot(bookings[i]);
        var j :| 0 <= j < |rows| && rows[j] == bookings[i];
      }
    }
  }

  /** Over any bookings, there is no peak hour exactly when none has an entry time. */
  lemma NoPeakIffNoEntry(rows: seq<BookingRecord>)
    ensures PeakHourBelow(HourlyCounts(rows), 24) == -1 <==> forall j :: 0 <= j < |rows| ==> rows[j].entryTime.None?
  {
    if exists j :: 0 <= j < |rows| && rows[j].entryTime.Some? {
      var j :| 0 <= j < |rows| && rows[j].entryTime.Some?;
      EntryHourCounted(rows, j);
    } else {
      NoEntryNoCounts(rows);
    }
  }

  /** The hour of a booking's entry is in the breakdown. */
  lemma EntryHourCounted(rows: seq<BookingRecord>, j: int)
    requires 0 <= j < |rows| && rows[j].entryTime.Some?
    ensures HourOf(rows[j].entryTime.value) in HourlyCounts(rows)
  {
    CountPositive(rows, ReportService.EnteredAtHour(HourOf(rows[j].entryTime.value)));
  }

  /** Without entry times the breakdown is empty. */
  lemma NoEntryNoCounts(rows: seq<BookingRecord>)
    requires forall j :: 0 <= j < |rows| ==> rows[j].entryTime.None?
    ensures forall h :: h !in HourlyCounts(rows)
  {
    forall h | 0 <= h < 24
      ensures Count(rows, ReportService.EnteredAtHour(h)) == 0
    {
      CountPositive(rows, ReportService.EnteredAtHour(h));
    }
  }
}
