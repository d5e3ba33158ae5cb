/** The reports computed over the bookings and slots tables: the summary report, parking
    duration metrics, peak hours, the CSV export, user segmentation and the hour-by-weekday
    occupancy heatmap. Instants are minutes (minute 0 is a Monday, 00:00) and `Double`
    amounts are exact reals. The text of an instant (`LocalDateTime.toString()`) and of an
    amount (`String.valueOf(Double)`) are parameters. */
module ReportService {
  import opened Common
  import opened Entities
  import opened Repository
  import opened Stores
  import SlotService
  import BookingService

  // ------------------------------------------------------------------
  // Slot utilization and the summary report
  // ------------------------------------------------------------------

  predicate AnySlot(s: SlotRecord) { true }

  predicate IsEnabled(s: SlotRecord) { !s.isDisabled }

  /** A slot taken by a booking: unavailable and not under maintenance. */
  predicate IsOccupied(s: SlotRecord) { !s.available && !s.isDisabled }

  datatype SlotUtilization = SlotUtilization(
    totalSlots: nat,
    availableSlots: nat,
    disabledSlots: nat,
    occupiedSlots: int,
    occupancyRate: int)

  /** Integer division of a percentage numerator that is at most 100 times the divisor. */
  lemma PercentageBounds(a: int, n: int)
    requires n > 0 && 0 <= a <= 100 * n
    ensures 0 <= a / n <= 100
    ensures (a / n) * n <= a < (a / n + 1) * n
  {
    var q := a / n;
    assert a == q * n + a % n && 0 <= a % n < n;
    assert (q - 100) * n <= a - 100 * n - a % n;
    assert q * n >= 0 - a % n;
  }

  /** The slot figures of `generateReport` and `calculateSlotUtilization`: occupied is what
      remains of the total after the bookable and the disabled slots, which is exactly the
      number of unavailable slots not under maintenance, and the occupancy rate is its
      percentage of the total rounded down (0 without slots). */
  function Utilization(slots: seq<SlotRecord>): (u: SlotUtilization)
    ensures u.totalSlots == |slots|
    ensures u.availableSlots == Count(slots, SlotService.IsBookable)
    ensures u.disabledSlots == Count(slots, SlotService.IsDisabled)
    ensures u.occupiedSlots == Count(slots, IsOccupied)
    ensures u.availableSlots + u.disabledSlots + u.occupiedSlots == u.totalSlots
    ensures 0 <= u.occupancyRate <= 100
    ensures u.totalSlots == 0 ==> u.occupancyRate == 0
    ensures u.totalSlots > 0 ==>
      u.occupancyRate * u.totalSlots <= u.occupiedSlots * 100 < (u.occupancyRate + 1) * u.totalSlots
  {
    var total := |slots|;
    var available := Count(slots, SlotService.IsBookable);
    var disabled := Count(slots, SlotService.IsDisabled);
    var occupied := total - available - disabled;
    CountAll(slots, AnySlot);
    CountSplit(slots, AnySlot, SlotService.IsDisabled, SlotService.IsDisabled, IsEnabled);
    CountSplit(slots, IsEnabled, (s: SlotRecord) => s.available, SlotService.IsBookable, IsOccupied);
    var rate := if total > 0 then occupied * 100 / total else 0;
    if total > 0 then
      PercentageBounds(occupied * 100, total);
      SlotUtilization(total, available, disabled, occupied, rate)
    else
      SlotUtilization(total, available, disabled, occupied, rate)
  }

  /** Without a COMPLETED booking counted there is no revenue. */
  lemma NoCompletedCountedNoRevenue(rows: seq<BookingRecord>)
    ensures CountByStatus(rows, COMPLETED) == 0 ==> TotalRevenue(rows) == 0.0
  {
    if CountByStatus(rows, COMPLETED) == 0 {
      CountPositive(rows, WithStatus(COMPLETED));
      assert forall i :: 0 <= i < |rows| ==> !WithStatus(COMPLETED)(rows[i]);
      NoCompletedNoRevenue(rows);
    }
  }

  /** `completed > 0 ? revenue / completed : 0`. */
  function AverageFee(revenue: real, completed: nat): (avg: real)
    ensures completed == 0 ==> avg == 0.0
    ensures completed > 0 ==> avg * completed as real == revenue
  {
    if completed > 0 then revenue / completed as real else 0.0
  }

  /** `generateReport(startDate, endDate, reportType)`, without its generation timestamp. */
  datatype Report = Report(
    reportType: string,
    startDate: int,
    endDate: int,
    totalBookings: nat,
    completedBookings: nat,
    activeBookings: nat,
    cancelledBookings: nat,
    totalRevenue: real,
    averageFee: real,
    slots: SlotUtilization)

  /** The report over the bookings entered in [start, end]: each status count is the number
      of those bookings with that status, and together they never exceed the total; revenue is the sum of the fees of COMPLETED bookings with a fee, the
      average fee is the revenue shared among the COMPLETED bookings, and both are 0
      without COMPLETED bookings. */
  function GenerateReport(t: Tables, start: int, end: int, reportType: string): (r: Report)
    ensures r.totalBookings == |FindBookingsByDateRange(t.bookings, start, end)|
    ensures r.completedBookings == CountByStatus(FindBookingsByDateRange(t.bookings, start, end), COMPLETED)
    ensures r.activeBookings == CountByStatus(FindBookingsByDateRange(t.bookings, start, end), ACTIVE)
    ensures r.cancelledBookings == CountByStatus(FindBookingsByDateRange(t.bookings, start, end), CANCELLED)
    ensures r.completedBookings + r.activeBookings + r.cancelledBookings <= r.totalBookings
    ensures r.totalRevenue == TotalRevenue(FindBookingsByDateRange(t.bookings, start, end))
    ensures r.completedBookings == 0 ==> r.totalRevenue == 0.0
    ensures r.averageFee == AverageFee(r.totalRevenue, r.completedBookings)
    ensures r.slots == Utilization(t.slots)
  {
    var rows := FindBookingsByDateRange(t.bookings, start, end);
    var completed := CountByStatus(rows, COMPLETED);
    var revenue := TotalRevenue(rows);
    StatusCountsPartition(rows);
    NoCompletedCountedNoRevenue(rows);
    Report(reportType, start, end, |rows|, completed, CountByStatus(rows, ACTIVE),
           CountByStatus(rows, CANCELLED), revenue, AverageFee(revenue, completed), Utilization(t.slots))
  }

  // ------------------------------------------------------------------
  // Duration metrics
  // ------------------------------------------------------------------

  /** A booking whose parking time is measured: both times present, exit not before entry. */
  predicate HasDuration(b: BookingRecord)
  {
    b.entryTime.Some? && b.exitTime.Some? && b.exitTime.value - b.entryTime.value >= 0
  }

  /** The parking times, in minutes, of the measured bookings, in table order. */
  function Durations(rows: seq<BookingRecord>): (r: seq<int>)
    ensures |r| == Count(rows, HasDuration)
    ensures forall i :: 0 <= i < |r| ==> r[i] >= 0
  {
    Map(Filter(rows, HasDuration), BookingService.DurationMinutes)
  }

  function AsKey(d: int): Option<int> { Some(d) }

  function AsReal(d: int): real { d as real }

  /** The middle of a sorted list, or the mean of its two middle elements. */
  function Median(s: seq<int>): real
    requires |s| > 0
  {
    var n := |s|;
    if n % 2 == 0 then (s[n / 2 - 1] + s[n / 2]) as real / 2.0 else s[n / 2] as real
  }

  datatype DurationMetrics = DurationMetrics(averageMinutes: real, maxMinutes: real, minMinutes: real, medianMinutes: real)

  /** The metrics of a list of durations: every metric is 0 for an empty list; otherwise
      the average of the list, the last and the first of its sorted copy, and the median of
      that sorted copy. */
  function MetricsOf(ds: seq<int>): (m: DurationMetrics)
    ensures ds == [] ==> m == DurationMetrics(0.0, 0.0, 0.0, 0.0)
  {
    if ds == [] then DurationMetrics(0.0, 0.0, 0.0, 0.0)
    else
      var s := SortBy(ds, AsKey, false);
      DurationMetrics(Sum(ds, AsReal) / |ds| as real, s[|s| - 1] as real, s[0] as real, Median(s))
  }

  /** `calculateDurationMetrics` over the given bookings. */
  function DurationMetricsOf(rows: seq<BookingRecord>): DurationMetrics
  {
    MetricsOf(Durations(rows))
  }

  /** In a list sorted ascending, the first element is at most and the last at least every element. */
  lemma SortedEnds(s: seq<int>, i: int)
    requires SortedBy(s, AsKey, false) && 0 <= i < |s|
    ensures s[0] <= s[i] <= s[|s| - 1]
  {
    assert i == 0 || KeyPrecedes(AsKey(s[0]), AsKey(s[i]), false);
    assert i == |s| - 1 || KeyPrecedes(AsKey(s[i]), AsKey(s[|s| - 1]), false);
  }

  /** The minimum and the maximum are durations of the list, every duration lies between
      them, and so do the average and the median. */
  lemma MetricsBounds(ds: seq<int>)
    requires ds != []
    ensures var m := MetricsOf(ds);
      (forall i :: 0 <= i < |ds| ==> m.minMinutes <= ds[i] as real <= m.maxMinutes) &&
      (exists i :: 0 <= i < |ds| && ds[i] as real == m.minMinutes) &&
      (exists i :: 0 <= i < |ds| && ds[i] as real == m.maxMinutes) &&
      m.minMinutes <= m.averageMinutes <= m.maxMinutes &&
      m.minMinutes <= m.medianMinutes <= m.maxMinutes
  {
    var m := MetricsOf(ds);
    var s := SortBy(ds, AsKey, false);
    var lo, hi := s[0] as real, s[|s| - 1] as real;
    assert m == DurationMetrics(Sum(ds, AsReal) / |ds| as real, hi, lo, Median(s));
    ExtremesOfSorted(ds, s);
    AverageWithin(ds, s[0], s[|s| - 1]);
    MedianWithinSorted(s);
  }

  lemma AverageWithin(ds: seq<int>, lo: int, hi: int)
    requires ds != [] && forall i :: 0 <= i < |ds| ==> lo <= ds[i] <= hi
    ensures lo as real <= Sum(ds, AsReal) / |ds| as real <= hi as real
  {
    assert forall i :: 0 <= i < |ds| ==> lo as real <= AsReal(ds[i]) <= hi as real;
    MeanBounds(ds, AsReal, lo as real, hi as real);
  }

  lemma ExtremesOfSorted(ds: seq<int>, s: seq<int>)
    requires s != [] && SortedBy(s, AsKey, false) && multiset(s) == multiset(ds)
    ensures forall i :: 0 <= i < |ds| ==> s[0] <= ds[i] <= s[|s| - 1]
    ensures (exists i :: 0 <= i < |ds| && ds[i] == s[0]) && (exists i :: 0 <= i < |ds| && ds[i] == s[|s| - 1])
  {
    forall i | 0 <= i < |ds|
      ensures s[0] <= ds[i] <= s[|s| - 1]
    {
      assert ds[i] in multiset(s);
      var j :| 0 <= j < |s| && s[j] == ds[i];
      SortedEnds(s, j);
    }
    assert s[0] in multiset(ds);
    assert s[|s| - 1] in multiset(ds);
  }

  lemma MedianWithinSorted(s: seq<int>)
    requires s != [] && SortedBy(s, AsKey, false)
    ensures s[0] as real <= Median(s) <= s[|s| - 1] as real
  {
    SortedEnds(s, |s| / 2);
    if |s| % 2 == 0 {
      SortedEnds(s, |s| / 2 - 1);
    }
  }

  /** Every measured parking time is non-negative, so the minimum is too. */
  lemma DurationMetricsNonNegative(rows: seq<BookingRecord>)
    requires Durations(rows) != []
    ensures DurationMetricsOf(rows).minMinutes >= 0.0
  {
    var ds := Durations(rows);
    MetricsBounds(ds);
    var i :| 0 <= i < |ds| && ds[i] as real == DurationMetricsOf(rows).minMinutes;
  }

  function AtMost(m: real): int -> bool { (d: int) => d as real <= m }

  function AtLeast(m: real): int -> bool { (d: int) => d as real >= m }

  /** The median splits the list in halves: at least half of the durations are no longer
      than it and at least half are no shorter. */
  lemma MedianSplits(ds: seq<int>)
    requires ds != []
    ensures var med := MetricsOf(ds).medianMinutes;
      2 * Count(ds, AtMost(med)) >= |ds| && 2 * Count(ds, AtLeast(med)) >= |ds|
  {
    var s := SortBy(ds, AsKey, false);
    var med := Median(s);
    assert MetricsOf(ds).medianMinutes == med;
    CountPermutation(ds, s, AtMost(med));
    CountPermutation(ds, s, AtLeast(med));
    SortedMedianSplits(s);
  }

  lemma SortedMedianSplits(s: seq<int>)
    requires s != [] && SortedBy(s, AsKey, false)
    ensures 2 * Count(s, AtMost(Median(s))) >= |s| && 2 * Count(s, AtLeast(Median(s))) >= |s|
  {
    var med := Median(s);
    var n := |s|;
    var h := n / 2;
    var lower := if n % 2 == 0 then h - 1 else h;
    assert med >= s[lower] as real && med <= s[h] as real by {
      if n % 2 == 0 {
        assert KeyPrecedes(AsKey(s[h - 1]), AsKey(s[h]), false);
      }
    }
    forall i | 0 <= i <= lower
      ensures AtMost(med)(s[i])
    {
      assert i == lower || KeyPrecedes(AsKey(s[i]), AsKey(s[lower]), false);
    }
    forall i | h <= i < n
      ensures AtLeast(med)(s[i])
    {
      assert i == h || KeyPrecedes(AsKey(s[h]), AsKey(s[i]), false);
    }
    CountSlice(s, AtMost(med), 0, lower + 1);
    CountSlice(s, AtLeast(med), h, n);
  }

  // ------------------------------------------------------------------
  // Peak hours
  // ------------------------------------------------------------------

  datatype PeakHourInfo = PeakHourInfo(hour: int, bookingCount: nat)

  function EnteredAtHour(hour: int): BookingRecord -> bool
  {
    (b: BookingRecord) => b.entryTime.Some? && HourOf(b.entryTime.value) == hour
  }

  function HourEntry(rows: seq<BookingRecord>, hour: int): PeakHourInfo
  {
    PeakHourInfo(hour, Count(rows, EnteredAtHour(hour)))
  }

  /** The `peakHoursData` map: each hour of the day at which some booking entered, with the
      number of bookings that entered at that hour. */
  function HourlyBookings(rows: seq<BookingRecord>): (r: seq<PeakHourInfo>)
    ensures forall i :: 0 <= i < |r| ==>
      0 <= r[i].hour < 24 && r[i].bookingCount > 0 && r[i] == HourEntry(rows, r[i].hour)
    ensures forall h :: 0 <= h < 24 && HourEntry(rows, h).bookingCount > 0 ==> HourEntry(rows, h) in r
    ensures forall i, j :: 0 <= i < j < |r| ==> r[i].hour < r[j].hour
  {
    var all := seq(24, h requires 0 <= h < 24 => HourEntry(rows, h));
    var booked := (e: PeakHourInfo) => e.bookingCount > 0;
    var r := Filter(all, booked);
    assert forall i :: 0 <= i < |r| ==> r[i] in all;
    assert forall h :: 0 <= h < 24 ==> all[h] == HourEntry(rows, h) && HourKey(all[h]) == h;
    FilterKeepsIncreasing(all, booked, HourKey);
    r
  }

  function CountKey(e: PeakHourInfo): Option<int> { Some(e.bookingCount) }

  function HourKey(e: PeakHourInfo): int { e.hour }

  /** `topPeakHours`: at most five distinct hours, by non-increasing booking count. */
  function TopPeakHours(rows: seq<BookingRecord>): (r: seq<PeakHourInfo>)
    ensures |r| == if |HourlyBookings(rows)| < 5 then |HourlyBookings(rows)| else 5
    ensures forall i, j :: 0 <= i < j < |r| ==> r[i].bookingCount >= r[j].bookingCount
    ensures forall i, j :: 0 <= i < j < |r| ==> r[i].hour != r[j].hour
  {
    var s := SortBy(HourlyBookings(rows), CountKey, true);
    var k := if |s| < 5 then |s| else 5;
    PrefixByCount(s, k);
    PermutationKeepsDistinctKeys(HourlyBookings(rows), s, HourKey);
    assert forall i :: 0 <= i < k ==> s[..k][i] == s[i];
    s[..k]
  }

  /** A prefix of a list sorted by descending count is in non-increasing count order. */
  lemma PrefixByCount(s: seq<PeakHourInfo>, k: nat)
    requires SortedBy(s, CountKey, true) && k <= |s|
    ensures forall i, j :: 0 <= i < j < k ==> s[..k][i].bookingCount >= s[..k][j].bookingCount
  {
    forall i, j | 0 <= i < j < k
      ensures s[..k][i].bookingCount >= s[..k][j].bookingCount
    {
      assert KeyPrecedes(CountKey(s[i]), CountKey(s[j]), true);
    }
  }

  /** The top hours are distinct hours of `peakHoursData`, and an hour left out of them has
      no more bookings than any hour kept. */
  lemma TopPeakHoursAreTop(rows: seq<BookingRecord>)
    ensures var top := TopPeakHours(rows);
      (forall i :: 0 <= i < |top| ==> top[i] in HourlyBookings(rows)) &&
      (forall e :: e in HourlyBookings(rows) && e !in top ==>
         forall i :: 0 <= i < |top| ==> e.bookingCount <= top[i].bookingCount) &&
      (forall i, j :: 0 <= i < j < |top| ==> top[i].hour != top[j].hour)
  {
    var hourly := HourlyBookings(rows);
    var s := SortBy(hourly, CountKey, true);
    var k := if |s| < 5 then |s| else 5;
    assert TopPeakHours(rows) == s[..k];
    SortedPrefixIsTop(hourly, k);
  }

  /** A prefix of the hours sorted by falling count is drawn from them and holds none
      lower than an hour it leaves out. */
  lemma SortedPrefixIsTop(hourly: seq<PeakHourInfo>, k: nat)
    requires k <= |SortBy(hourly, CountKey, true)|
    ensures var top := SortBy(hourly, CountKey, true)[..k];
      (forall i :: 0 <= i < k ==> top[i] in hourly) &&
      (forall e :: e in hourly && e !in top ==> forall i :: 0 <= i < k ==> e.bookingCount <= top[i].bookingCount)
  {
    var s := SortBy(hourly, CountKey, true);
    SortByMembers(hourly, CountKey, true);
    SortByKeeps(hourly, CountKey, true);
    forall i | 0 <= i < k
      ensures s[..k][i] in hourly
    {
      assert s[..k][i] == s[i] && s[i] in s;
    }
    forall e | e in hourly && e !in s[..k]
      ensures forall i :: 0 <= i < k ==> e.bookingCount <= s[..k][i].bookingCount
    {
      LeftOutNoGreater(s, k, e);
    }
  }

  /** In a list sorted by descending count, an element outside the first `k` has no more
      bookings than any of them. */
  lemma LeftOutNoGreater(s: seq<PeakHourInfo>, k: nat, e: PeakHourInfo)
    requires SortedBy(s, CountKey, true) && k <= |s|
    requires e in s && e !in s[..k]
    ensures forall i :: 0 <= i < k ==> e.bookingCount <= s[..k][i].bookingCount
  {
    var j :| 0 <= j < |s| && s[j] == e;
    assert forall m :: 0 <= m < k ==> s[..k][m] == s[m] && s[..k][m] in s[..k];
    assert k <= j;
    forall i | 0 <= i < k
      ensures e.bookingCount <= s[..k][i].bookingCount
    {
      assert KeyPrecedes(CountKey(s[i]), CountKey(s[j]), true);
    }
  }

  // ------------------------------------------------------------------
  // CSV fields
  // ------------------------------------------------------------------

  predicate NoLineBreak(s: string)
  {
    forall i :: 0 <= i < |s| ==> s[i] != '\r' && s[i] != '\n'
  }

  /** `value.replace("\r", " ").replace("\n", " ")`. */
  function ReplaceLineBreaks(s: string): (r: string)
    ensures |r| == |s|
    ensures forall i :: 0 <= i < |s| ==> r[i] == if s[i] == '\r' || s[i] == '\n' then ' ' else s[i]
  {
    seq(|s|, i requires 0 <= i < |s| => if s[i] == '\r' || s[i] == '\n' then ' ' else s[i])
  }

  /** `v.replace("\"", "\"\"")`. */
  function DoubleQuotes(s: string): (r: string)
    ensures NoLineBreak(s) ==> NoLineBreak(r)
    decreases |s|
  {
    if s == [] then []
    else
      var rest := DoubleQuotes(s[1..]);
      assert NoLineBreak(s) ==> NoLineBreak(s[1..]) by {
        if NoLineBreak(s) {
          forall i | 0 <= i < |s[1..]|
            ensures s[1..][i] != '\r' && s[1..][i] != '\n'
          {
            assert s[1..][i] == s[i + 1];
          }
        }
      }
      (if s[0] == '"' then "\"\"" else [s[0]]) + rest
  }

  /** Reading back the inside of a quoted field: each doubled quote is one quote. */
  function UndoubleQuotes(s: string): string
    decreases |s|
  {
    if s == [] then []
    else if |s| >= 2 && s[0] == '"' && s[1] == '"' then "\"" + UndoubleQuotes(s[2..])
    else [s[0]] + UndoubleQuotes(s[1..])
  }

  lemma {:induction false} UndoubleDoubleQuotes(s: string)
    ensures UndoubleQuotes(DoubleQuotes(s)) == s
    decreases |s|
  {
    if s != [] {
      var rest := DoubleQuotes(s[1..]);
      UndoubleDoubleQuotes(s[1..]);
      if s[0] == '"' {
        assert DoubleQuotes(s) == "\"\"" + rest;
        assert ("\"\"" + rest)[2..] == rest;
      } else {
        assert DoubleQuotes(s) == [s[0]] + rest;
        assert ([s[0]] + rest)[1..] == rest;
      }
      assert s == [s[0]] + s[1..];
    }
  }

  predicate IsQuoted(f: string)
  {
    |f| >= 2 && f[0] == '"' && f[|f| - 1] == '"'
  }

  /** Reading one CSV field (RFC 4180, section 2): a quoted field loses its quotes and has
      its doubled quotes undone; any other field is taken as it is. */
  function ParseCsvField(f: string): string
  {
    if IsQuoted(f) then UndoubleQuotes(f[1..|f| - 1]) else f
  }

  predicate NeedsQuoting(v: string)
  {
    Contains(v, ",") || Contains(v, "\"") || Contains(v, "\n")
  }

  /** `escapeCsv(value)`: null gives the empty field, line breaks become spaces, and text
      holding a comma or a quote is quoted with its quotes doubled. */
  function EscapeCsv(value: Option<string>): (r: string)
    ensures value.None? ==> r == ""
    ensures NoLineBreak(r)
    ensures value.Some? && (forall i :: 0 <= i < |value.value| ==>
              value.value[i] != ',' && value.value[i] != '"' && value.value[i] != '\r' && value.value[i] != '\n')
            ==> r == value.value
  {
    if value.None? then ""
    else
      var v := ReplaceLineBreaks(value.value);
      ContainsChar(v, ',');
      ContainsChar(v, '"');
      ContainsChar(v, '\n');
      if NeedsQuoting(v) then
        var r := "\"" + DoubleQuotes(v) + "\"";
        assert forall i :: 0 < i < |r| - 1 ==> r[i] == DoubleQuotes(v)[i - 1];
        r
      else
        assert v == value.value ||
               exists i :: 0 <= i < |value.value| && (value.value[i] == '\r' || value.value[i] == '\n');
        v
  }

  /** Reading an escaped field back gives the text with its line breaks turned into
      spaces; the field is quoted exactly when the text holds a comma or a quote, so a line
      break alone never causes quoting. */
  lemma EscapeCsvRoundTrip(v: string)
    ensures ParseCsvField(EscapeCsv(Some(v))) == ReplaceLineBreaks(v)
    ensures IsQuoted(EscapeCsv(Some(v))) <==> exists i :: 0 <= i < |v| && (v[i] == ',' || v[i] == '"')
  {
    var w := ReplaceLineBreaks(v);
    var r := EscapeCsv(Some(v));
    ContainsChar(w, ',');
    ContainsChar(w, '"');
    ContainsChar(w, '\n');
    if NeedsQuoting(w) {
      assert r == "\"" + DoubleQuotes(w) + "\"";
      assert r[1..|r| - 1] == DoubleQuotes(w);
      UndoubleDoubleQuotes(w);
      var i :| 0 <= i < |w| && (w[i] == ',' || w[i] == '"');
      assert v[i] == ',' || v[i] == '"';
    } else {
      assert r == w;
      assert forall i :: 0 <= i < |v| && (v[i] == ',' || v[i] == '"') ==> w[i] == v[i];
    }
  }

  /** `safe(obj)` for a nullable number. */
  function SafeInt(x: Option<int>): (r: string)
    ensures x.None? <==> r == ""
    ensures NoLineBreak(r)
  {
    if x.None? then "" else IntToString(x.value)
  }

  /** `safe(fee)`; `feeText` is `String.valueOf(Double)`. */
  function SafeFee(x: Option<real>, feeText: real -> string): string
  {
    if x.None? then "" else feeText(x.value)
  }

  /** `formatDateTime(dt)`; `fmt` is `LocalDateTime.toString()`. */
  function FormatTime(x: Option<int>, fmt: int -> string): Option<string>
  {
    if x.None? then None else Some(fmt(x.value))
  }

  function VehicleTypeName(v: Option<VehicleType>): Option<string>
  {
    if v.None? then None else Some(v.value.Name())
  }

  function StatusText(s: Option<ParkingStatus>): Option<string>
  {
    if s.None? then None else Some(s.value.Name())
  }

  /** Fields joined by commas. */
  function JoinFields(fs: seq<string>): (r: string)
    ensures (forall i :: 0 <= i < |fs| ==> NoLineBreak(fs[i])) ==> NoLineBreak(r)
    decreases |fs|
  {
    if |fs| == 0 then ""
    else if |fs| == 1 then fs[0]
    else
      var rest := JoinFields(fs[1..]);
      assert forall i :: 0 <= i < |fs[1..]| ==> fs[1..][i] == fs[i + 1];
      var r := fs[0] + "," + rest;
      assert forall i :: |fs[0]| + 1 <= i < |r| ==> r[i] == rest[i - |fs[0]| - 1];
      r
  }

  // ------------------------------------------------------------------
  // CSV export
  // ------------------------------------------------------------------

  const CsvColumns: seq<string> := ["id", "userId", "slotId", "vehicleType", "entryTime", "exitTime", "status",
                                    "parkingFee", "transactionId", "paymentStatus", "paymentTime", "durationMinutes"]

  function CsvHeader(): string
  {
    JoinFields(CsvColumns) + "\n"
  }

  /** The twelve fields of a booking's line; the duration is 0 unless both times are set. */
  function CsvFields(b: BookingRecord, fmt: int -> string, feeText: real -> string): (r: seq<string>)
    ensures |r| == |CsvColumns|
  {
    [SafeInt(b.id), SafeInt(b.userId), SafeInt(b.slotId),
     EscapeCsv(VehicleTypeName(b.vehicleType)),
     EscapeCsv(FormatTime(b.entryTime, fmt)),
     EscapeCsv(FormatTime(b.exitTime, fmt)),
     EscapeCsv(StatusText(b.status)),
     SafeFee(b.parkingFee, feeText),
     EscapeCsv(b.transactionId),
     EscapeCsv(b.paymentStatus),
     EscapeCsv(FormatTime(b.paymentTime, fmt)),
     IntToString(BookingService.DurationMinutes(b))]
  }

  function CsvLine(b: BookingRecord, fmt: int -> string, feeText: real -> string): string
  {
    JoinFields(CsvFields(b, fmt, feeText)) + "\n"
  }

  /** The lines of the given bookings, in order. */
  function CsvLines(rows: seq<BookingRecord>, fmt: int -> string, feeText: real -> string): string
    decreases |rows|
  {
    if rows == [] then ""
    else CsvLines(rows[..|rows| - 1], fmt, feeText) + CsvLine(rows[|rows| - 1], fmt, feeText)
  }

  function WithSlot(slotId: Option<int>): BookingRecord -> bool
  {
    (b: BookingRecord) => b.slotId == slotId
  }

  function WithUser(userId: Option<int>): BookingRecord -> bool
  {
    (b: BookingRecord) => b.userId == userId
  }

  /** What the export keeps: entered within the range when both ends are given, and of the
      slot and of the user when they are given. */
  predicate CsvSelects(b: BookingRecord, start: Option<int>, end: Option<int>, slotId: Option<int>, userId: Option<int>)
  {
    (start.Some? && end.Some? ==> EntryWithin(b, start.value, end.value)) &&
    (slotId.Some? ==> b.slotId == slotId) &&
    (userId.Some? ==> b.userId == userId)
  }

  /** The list `generateBookingsCsv` starts from: the date range when both ends are given,
      otherwise the slot's or the user's bookings when exactly one of them is given,
      otherwise the whole table. */
  function CsvBase(t: Tables, start: Option<int>, end: Option<int>, slotId: Option<int>, userId: Option<int>)
    : seq<BookingRecord>
  {
    if start.Some? && end.Some? then FindBookingsByDateRange(t.bookings, start.value, end.value)
    else if slotId.Some? && userId.None? then FindBySlotId(t.bookings, slotId.value)
    else if userId.Some? && slotId.None? then FindByUserId(t.bookings, userId.value)
    else t.bookings
  }

  /** The starting list narrowed to the slot and to the user when they are given. */
  function CsvFiltered(t: Tables, start: Option<int>, end: Option<int>, slotId: Option<int>, userId: Option<int>)
    : seq<BookingRecord>
  {
    var base := CsvBase(t, start, end, slotId, userId);
    var bySlot := if slotId.Some? then Filter(base, WithSlot(slotId)) else base;
    if userId.Some? then Filter(bySlot, WithUser(userId)) else bySlot
  }

  /** The bookings `generateBookingsCsv` exports, in export order. */
  function CsvRows(t: Tables, start: Option<int>, end: Option<int>, slotId: Option<int>, userId: Option<int>)
    : seq<BookingRecord>
  {
    SortBy(CsvFiltered(t, start, end, slotId, userId), EntryTimeOf, false)
  }

  lemma CsvBaseMembers(t: Tables, start: Option<int>, end: Option<int>, slotId: Option<int>, userId: Option<int>)
    ensures forall b :: b in CsvBase(t, start, end, slotId, userId) ==> b in t.bookings
    ensures forall b :: b in CsvBase(t, start, end, slotId, userId) && start.Some? && end.Some? ==>
      EntryWithin(b, start.value, end.value)
    ensures forall b :: b in t.bookings && CsvSelects(b, start, end, slotId, userId) ==>
      b in CsvBase(t, start, end, slotId, userId)
  {
    var base := CsvBase(t, start, end, slotId, userId);
    forall b | b in base
      ensures b in t.bookings && (start.Some? && end.Some? ==> EntryWithin(b, start.value, end.value))
    {
      var i :| 0 <= i < |base| && base[i] == b;
    }
    forall b | b in t.bookings && CsvSelects(b, start, end, slotId, userId)
      ensures b in base
    {
      var i :| 0 <= i < |t.bookings| && t.bookings[i] == b;
    }
  }

  lemma CsvFilteredMembers(t: Tables, start: Option<int>, end: Option<int>, slotId: Option<int>, userId: Option<int>)
    ensures forall b :: b in CsvFiltered(t, start, end, slotId, userId) <==>
      b in t.bookings && CsvSelects(b, start, end, slotId, userId)
  {
    var base := CsvBase(t, start, end, slotId, userId);
    var bySlot := if slotId.Some? then Filter(base, WithSlot(slotId)) else base;
    CsvBaseMembers(t, start, end, slotId, userId);
    FilterMembers(base, WithSlot(slotId));
    FilterMembers(bySlot, WithUser(userId));
    assert forall b :: b in bySlot <==> b in base && (slotId.Some? ==> b.slotId == slotId);
  }

  /** The export is sorted by entry time with bookings without one last, and holds exactly
      the stored bookings that match every filter given. */
  lemma CsvRowsSpec(t: Tables, start: Option<int>, end: Option<int>, slotId: Option<int>, userId: Option<int>)
    ensures SortedBy(CsvRows(t, start, end, slotId, userId), EntryTimeOf, false)
    ensures forall b :: b in CsvRows(t, start, end, slotId, userId) <==>
      b in t.bookings && CsvSelects(b, start, end, slotId, userId)
  {
    CsvFilteredMembers(t, start, end, slotId, userId);
    SortByKeeps(CsvFiltered(t, start, end, slotId, userId), EntryTimeOf, false);
  }

  /** The text `generateBookingsCsv` returns. */
  function CsvExport(t: Tables, start: Option<int>, end: Option<int>, slotId: Option<int>, userId: Option<int>,
                     fmt: int -> string, feeText: real -> string): string
  {
    CsvHeader() + CsvLines(CsvRows(t, start, end, slotId, userId), fmt, feeText)
  }

  /** `generateBookingsCsv(startDate, endDate, slotId, userId)`. */
  method GenerateBookingsCsv(store: ParkingStore, start: Option<int>, end: Option<int>, slotId: Option<int>,
                             userId: Option<int>, fmt: int -> string, feeText: real -> string)
    returns (csv: string)
    ensures csv == CsvExport(store.State(), start, end, slotId, userId, fmt, feeText)
  {
    var bookings: seq<BookingRecord>;
    if start.Some? && end.Some? {
      bookings := FindBookingsByDateRange(store.bookings, start.value, end.value);
    } else if slotId.Some? && userId.None? {
      bookings := FindBySlotId(store.bookings, slotId.value);
    } else if userId.Some? && slotId.None? {
      bookings := FindByUserId(store.bookings, userId.value);
    } else {
      bookings := store.bookings;
    }
    ghost var t := store.State();
    assert bookings == CsvBase(t, start, end, slotId, userId);
    if slotId.Some? {
      bookings := Filter(bookings, WithSlot(slotId));
    }
    if userId.Some? {
      bookings := Filter(bookings, WithUser(userId));
    }
    assert bookings == CsvFiltered(t, start, end, slotId, userId);
    bookings := SortBy(bookings, EntryTimeOf, false);
    csv := WriteCsv(CsvHeader(), bookings, fmt, feeText);
  }

  lemma CsvLinesSnoc(header: string, rows: seq<BookingRecord>, k: int, fmt: int -> string, feeText: real -> string)
    requires 0 <= k < |rows|
    ensures header + CsvLines(rows[..k + 1], fmt, feeText) ==
            (header + CsvLines(rows[..k], fmt, feeText)) + CsvLine(rows[k], fmt, feeText)
  {
    assert rows[..k + 1][..k] == rows[..k];
    var done := CsvLines(rows[..k], fmt, feeText);
    var line := CsvLine(rows[k], fmt, feeText);
    assert CsvLines(rows[..k + 1], fmt, feeText) == done + line;
    ConcatAssociates(header, done, line);
  }

  /** The builder loop: starting from `header`, one line per booking appended in order. */
  method WriteCsv(header: string, bookings: seq<BookingRecord>, fmt: int -> string, feeText: real -> string)
    returns (csv: string)
    ensures csv == header + CsvLines(bookings, fmt, feeText)
  {
    csv := header;
    for i := 0 to |bookings|
      invariant csv == header + CsvLines(bookings[..i], fmt, feeText)
    {
      CsvLinesSnoc(header, bookings, i, fmt, feeText);
      csv := csv + CsvLine(bookings[i], fmt, feeText);
    }
    assert bookings[..|bookings|] == bookings;
  }

  predicate IsLineFeed(c: char) { c == '\n' }

  lemma NoLineFeedCounted(s: string)
    requires NoLineBreak(s)
    ensures Count(s, IsLineFeed) == 0
  {
    CountPositive(s, IsLineFeed);
  }

  lemma OneLineFeed(s: string)
    requires NoLineBreak(s)
    ensures Count(s + "\n", IsLineFeed) == 1
  {
    CountAppend(s, "\n", IsLineFeed);
    NoLineFeedCounted(s);
    CountCons("\n", IsLineFeed);
    assert "\n"[1..] == [];
  }

  lemma SafeFeeOneLine(x: Option<real>, feeText: real -> string)
    requires forall y :: NoLineBreak(feeText(y))
    ensures NoLineBreak(SafeFee(x, feeText))
  {
    if x.Some? {
      var v := x.value;
      FeeTextOneLine(feeText, v);
    }
  }

  lemma FeeTextOneLine(feeText: real -> string, v: real)
    requires forall y :: NoLineBreak(feeText(y))
    ensures NoLineBreak(feeText(v))
  {
    var text := feeText(v);
    assert NoLineBreak(text);
  }

  /** A booking's line holds exactly one line break, at its end. */
  lemma CsvLineCount(b: BookingRecord, fmt: int -> string, feeText: real -> string)
    requires forall x :: NoLineBreak(feeText(x))
    ensures Count(CsvLine(b, fmt, feeText), IsLineFeed) == 1
  {
    var fs := CsvFields(b, fmt, feeText);
    CsvFieldsOneLine(b, fmt, feeText);
    OneLineFeed(JoinFields(fs));
  }

  lemma CsvFieldsOneLine(b: BookingRecord, fmt: int -> string, feeText: real -> string)
    requires forall x :: NoLineBreak(feeText(x))
    ensures var fs := CsvFields(b, fmt, feeText); forall i :: 0 <= i < |fs| ==> NoLineBreak(fs[i])
  {
    var fs := CsvFields(b, fmt, feeText);
    SafeFeeOneLine(b.parkingFee, feeText);
    DecimalOneLine(IntToString(BookingService.DurationMinutes(b)));
    forall x | x in fs
      ensures NoLineBreak(x)
    {
    }
    assert forall i :: 0 <= i < |fs| ==> fs[i] in fs;
  }

  lemma DecimalOneLine(d: string)
    requires forall i :: 0 <= i < |d| ==> IsDecimalChar(d[i])
    ensures NoLineBreak(d)
  {
  }

  lemma {:induction false} CsvLinesCount(rows: seq<BookingRecord>, fmt: int -> string, feeText: real -> string)
    requires forall x :: NoLineBreak(feeText(x))
    ensures Count(CsvLines(rows, fmt, feeText), IsLineFeed) == |rows|
    decreases |rows|
  {
    if rows != [] {
      var b := rows[|rows| - 1];
      CsvLinesCount(rows[..|rows| - 1], fmt, feeText);
      CountAppend(CsvLines(rows[..|rows| - 1], fmt, feeText), CsvLine(b, fmt, feeText), IsLineFeed);
      CsvLineCount(b, fmt, feeText);
    }
  }

  /** The header is one line. */
  lemma CsvHeaderCount()
    ensures Count(CsvHeader(), IsLineFeed) == 1
  {
    ColumnsOneLine();
    OneLineFeed(JoinFields(CsvColumns));
  }

  lemma ColumnsOneLine()
    ensures forall i :: 0 <= i < |CsvColumns| ==> NoLineBreak(CsvColumns[i])
  {
    forall i | 0 <= i < |CsvColumns|
      ensures NoLineBreak(CsvColumns[i])
    {
      var c := CsvColumns[i];
      assert forall j :: 0 <= j < |c| ==> 'a' <= c[j] <= 'z' || 'A' <= c[j] <= 'Z';
    }
  }

  /** The export is the header line followed by exactly one line per exported booking, and
      ends with a line break. */
  lemma CsvExportLines(t: Tables, start: Option<int>, end: Option<int>, slotId: Option<int>, userId: Option<int>,
                       fmt: int -> string, feeText: real -> string)
    requires forall x :: NoLineBreak(feeText(x))
    ensures var csv := CsvExport(t, start, end, slotId, userId, fmt, feeText);
      Count(csv, IsLineFeed) == 1 + |CsvRows(t, start, end, slotId, userId)| && csv[|csv| - 1] == '\n'
  {
    var rows := CsvRows(t, start, end, slotId, userId);
    CsvHeaderCount();
    CsvLinesCount(rows, fmt, feeText);
    CountAppend(CsvHeader(), CsvLines(rows, fmt, feeText), IsLineFeed);
  }

  // ------------------------------------------------------------------
  // User behaviour
  // ------------------------------------------------------------------

  datatype UserSegment = ONE_TIME | VIP | REGULAR

  /** The segment of a user with `totalBookings` bookings who spent `totalSpent`. */
  function Segment(totalBookings: nat, totalSpent: real): (s: UserSegment)
    ensures s == ONE_TIME <==> totalBookings == 1
    ensures s == VIP <==> totalBookings != 1 && (totalBookings >= 10 || totalSpent >= 1000.0)
    ensures s == REGULAR <==> totalBookings != 1 && totalBookings < 10 && totalSpent < 1000.0
  {
    if totalBookings == 1 then ONE_TIME
    else if totalBookings >= 10 || totalSpent >= 1000.0 then VIP
    else REGULAR
  }

  /** A user with at least two bookings who is VIP stays VIP with more bookings or more
      spending, and a single booking is ONE_TIME whatever it cost. */
  lemma SegmentOrder(n: nat, spent: real, n2: nat, spent2: real)
    requires n >= 2 && n2 >= n && spent2 >= spent
    ensures Segment(n, spent) == VIP ==> Segment(n2, spent2) == VIP
    ensures Segment(n2, spent2) == REGULAR ==> Segment(n, spent) == REGULAR
    ensures Segment(1, spent) == ONE_TIME
  {
  }

  /** The latest entry time among the rows, if any row has one. */
  function LatestEntry(rows: seq<BookingRecord>): (r: Option<int>)
    ensures r.None? <==> forall i :: 0 <= i < |rows| ==> rows[i].entryTime.None?
    ensures r.Some? ==> exists i :: 0 <= i < |rows| && rows[i].entryTime == r
    ensures forall i :: 0 <= i < |rows| && rows[i].entryTime.Some? ==> r.Some? && rows[i].entryTime.value <= r.value
    decreases |rows|
  {
    if rows == [] then None
    else
      var rest := LatestEntry(rows[1..]);
      assert forall i :: 1 <= i < |rows| ==> rows[i] == rows[1..][i - 1];
      match rows[0].entryTime
      case None => rest
      case Some(e) =>
        if rest.Some? && rest.value >= e then rest else Some(e)
  }

  datatype UserBehavior = UserBehavior(
    userId: int,
    totalBookings: nat,
    totalSpent: real,
    lastBookingDate: Option<int>,
    segment: UserSegment)

  function BehaviorOf(rows: seq<BookingRecord>, userId: int): UserBehavior
  {
    var mine := FindByUserId(rows, userId);
    var spent := TotalRevenue(mine);
    UserBehavior(userId, |mine|, spent, LatestEntry(mine), Segment(|mine|, spent))
  }

  /** The analytics of the given users in order, skipping users without bookings. */
  function Behaviors(rows: seq<BookingRecord>, userIds: seq<int>): (r: seq<UserBehavior>)
    ensures |r| <= |userIds|
    ensures forall i :: 0 <= i < |r| ==>
      r[i].userId in userIds && r[i].totalBookings >= 1 && r[i] == BehaviorOf(rows, r[i].userId)
    decreases |userIds|
  {
    if userIds == [] then []
    else
      var u := userIds[0];
      var rest := Behaviors(rows, userIds[1..]);
      if |FindByUserId(rows, u)| > 0 then
        BehaviorsCons(rows, userIds, rest);
        [BehaviorOf(rows, u)] + rest
      else rest
  }

  /** A user with bookings put in front of the analytics of the users after it. */
  lemma BehaviorsCons(rows: seq<BookingRecord>, userIds: seq<int>, rest: seq<UserBehavior>)
    requires userIds != [] && |FindByUserId(rows, userIds[0])| > 0
    requires forall i :: 0 <= i < |rest| ==>
      rest[i].userId in userIds[1..] && rest[i].totalBookings >= 1 && rest[i] == BehaviorOf(rows, rest[i].userId)
    ensures var r := [BehaviorOf(rows, userIds[0])] + rest;
      forall i :: 0 <= i < |r| ==>
        r[i].userId in userIds && r[i].totalBookings >= 1 && r[i] == BehaviorOf(rows, r[i].userId)
  {
    var r := [BehaviorOf(rows, userIds[0])] + rest;
    forall i | 0 <= i < |r|
      ensures r[i].userId in userIds && r[i].totalBookings >= 1 && r[i] == BehaviorOf(rows, r[i].userId)
    {
      if i > 0 {
        assert r[i] == rest[i - 1];
        assert rest[i - 1].userId in userIds[1..];
      }
    }
  }

  /** Distinct user ids give entries for distinct users: one entry per user at most. */
  lemma {:induction false} BehaviorsDistinct(rows: seq<BookingRecord>, userIds: seq<int>)
    requires forall i, j :: 0 <= i < j < |userIds| ==> userIds[i] != userIds[j]
    ensures forall i, j :: 0 <= i < j < |Behaviors(rows, userIds)| ==>
      Behaviors(rows, userIds)[i].userId != Behaviors(rows, userIds)[j].userId
    decreases |userIds|
  {
    if userIds != [] {
      var tail := userIds[1..];
      assert forall i :: 0 <= i < |tail| ==> tail[i] == userIds[i + 1];
      BehaviorsDistinct(rows, tail);
      var rest := Behaviors(rows, tail);
      if |FindByUserId(rows, userIds[0])| > 0 {
        DistinctBehindNewUser(BehaviorOf(rows, userIds[0]), rest, tail);
      }
    }
  }

  /** An entry for a user not among the users of the entries behind it keeps the users of
      the list distinct. */
  lemma DistinctBehindNewUser(b: UserBehavior, rest: seq<UserBehavior>, tail: seq<int>)
    requires b.userId !in tail
    requires forall i :: 0 <= i < |rest| ==> rest[i].userId in tail
    requires forall i, j :: 0 <= i < j < |rest| ==> rest[i].userId != rest[j].userId
    ensures forall i, j :: 0 <= i < j < |[b] + rest| ==> ([b] + rest)[i].userId != ([b] + rest)[j].userId
  {
    var r := [b] + rest;
    forall i, j | 0 <= i < j < |r|
      ensures r[i].userId != r[j].userId
    {
      assert r[j] == rest[j - 1];
      if i > 0 {
        assert r[i] == rest[i - 1];
      }
    }
  }

  /** A user gets an entry exactly when they have a booking in the period. */
  lemma {:induction false} BehaviorsCoverUsers(rows: seq<BookingRecord>, userIds: seq<int>)
    ensures forall u :: u in userIds ==>
      (|FindByUserId(rows, u)| > 0 <==> BehaviorOf(rows, u) in Behaviors(rows, userIds))
    decreases |userIds|
  {
    if userIds != [] {
      BehaviorsCoverUsers(rows, userIds[1..]);
      var u0 := userIds[0];
      var rest := Behaviors(rows, userIds[1..]);
      var r := Behaviors(rows, userIds);
      assert r == (if |FindByUserId(rows, u0)| > 0 then [BehaviorOf(rows, u0)] else []) + rest;
      assert forall u :: u in userIds ==> u == u0 || u in userIds[1..];
      assert forall u :: u !in userIds[1..] ==> BehaviorOf(rows, u) !in rest;
    }
  }

  datatype AnalyticsError = NullUserId

  /** `getUserBehaviorAnalytics(startDate, endDate)` for the users `userIds` in the order
      `findAll` returns them. Comparing a booking's null user id against a user fails, so
      the call fails as soon as there is a user and a booking in range without one. */
  function UserBehaviorAnalytics(t: Tables, userIds: seq<int>, start: int, end: int)
    : (r: Result<seq<UserBehavior>, AnalyticsError>)
    ensures var rows := FindBookingsByDateRange(t.bookings, start, end);
      r.Err? <==> |userIds| > 0 && exists i :: 0 <= i < |rows| && rows[i].userId.None?
    ensures r.Ok? ==> r.value == Behaviors(FindBookingsByDateRange(t.bookings, start, end), userIds)
  {
    var rows := FindBookingsByDateRange(t.bookings, start, end);
    if |userIds| > 0 && exists i :: 0 <= i < |rows| && rows[i].userId.None? then Err(NullUserId)
    else Ok(Behaviors(rows, userIds))
  }

  // ------------------------------------------------------------------
  // Occupancy heatmap
  // ------------------------------------------------------------------

  datatype HeatmapCell = HeatmapCell(hour: int, dayOfWeek: int, occupancyPercentage: real, bookingCount: nat)

  function EnteredAt(hour: int, day: int): BookingRecord -> bool
  {
    (b: BookingRecord) => b.entryTime.Some? && HourOf(b.entryTime.value) == hour && DayOfWeek(b.entryTime.value) == day
  }

  /** The cell of an hour and a weekday: the bookings that entered then, as a percentage of
      the slots capped at 100 (0 without slots). */
  function CellFor(rows: seq<BookingRecord>, totalSlots: nat, hour: int, day: int): (c: HeatmapCell)
    ensures c.hour == hour && c.dayOfWeek == day
    ensures c.bookingCount == Count(rows, EnteredAt(hour, day))
    ensures 0.0 <= c.occupancyPercentage <= 100.0
    ensures totalSlots == 0 ==> c.occupancyPercentage == 0.0
    ensures totalSlots > 0 && c.occupancyPercentage < 100.0 ==>
      c.occupancyPercentage * totalSlots as real == c.bookingCount as real * 100.0
  {
    var count := Count(rows, EnteredAt(hour, day));
    var pct := if totalSlots > 0 then count as real * 100.0 / totalSlots as real else 0.0;
    HeatmapCell(hour, day, if pct < 100.0 then pct else 100.0, count)
  }

  function IndexOfCell(hour: int, day: int): int
  {
    hour * 7 + day - 1
  }

  lemma CellIndex(hour: int, day: int)
    requires 0 <= hour && 1 <= day <= 7
    ensures IndexOfCell(hour, day) / 7 == hour && IndexOfCell(hour, day) % 7 == day - 1
  {
  }

  /** `getOccupancyHeatmap(startDate, endDate)`: 24 x 7 cells, hour by hour and, within an
      hour, Monday (1) to Sunday (7). */
  method OccupancyHeatmap(store: ParkingStore, start: int, end: int) returns (cells: seq<HeatmapCell>)
    ensures |cells| == 168
    ensures forall i :: 0 <= i < 168 ==>
      cells[i] == CellFor(FindBookingsByDateRange(store.bookings, start, end), |store.slots|, i / 7, i % 7 + 1)
  {
    var rows := FindBookingsByDateRange(store.bookings, start, end);
    var totalSlots := |store.slots|;
    cells := [];
    var hour := 0;
    while hour < 24
      invariant 0 <= hour <= 24
      invariant |cells| == hour * 7
      invariant forall i :: 0 <= i < |cells| ==> cells[i] == CellFor(rows, totalSlots, i / 7, i % 7 + 1)
    {
      var day := 1;
      while day <= 7
        invariant 1 <= day <= 8
        invariant |cells| == hour * 7 + day - 1
        invariant forall i :: 0 <= i < |cells| ==> cells[i] == CellFor(rows, totalSlots, i / 7, i % 7 + 1)
      {
        var count := Count(rows, EnteredAt(hour, day));
        var pct := if totalSlots > 0 then count as real * 100.0 / totalSlots as real else 0.0;
        CellIndex(hour, day);
        cells := cells + [HeatmapCell(hour, day, if pct < 100.0 then pct else 100.0, count)];
        day := day + 1;
      }
      hour := hour + 1;
    }
  }

  /** Every heatmap cell lies within 0..100 percent, cells run hour by hour and weekday by
      weekday, and the cell of hour `h` and weekday `d` sits at index `h * 7 + d - 1`. */
  lemma HeatmapGrid(cells: seq<HeatmapCell>, rows: seq<BookingRecord>, totalSlots: nat)
    requires |cells| == 168
    requires forall i :: 0 <= i < 168 ==> cells[i] == CellFor(rows, totalSlots, i / 7, i % 7 + 1)
    ensures forall i :: 0 <= i < 168 ==>
      0.0 <= cells[i].occupancyPercentage <= 100.0 && cells[i].hour == i / 7 && cells[i].dayOfWeek == i % 7 + 1
    ensures forall h, d :: 0 <= h < 24 && 1 <= d <= 7 ==> IndexOfCell(h, d) < 168 && cells[IndexOfCell(h, d)] == CellFor(rows, totalSlots, h, d)
  {
    forall h, d | 0 <= h < 24 && 1 <= d <= 7
      ensures IndexOfCell(h, d) < 168 && cells[IndexOfCell(h, d)] == CellFor(rows, totalSlots, h, d)
    {
      CellIndex(h, d);
    }
  }
}
