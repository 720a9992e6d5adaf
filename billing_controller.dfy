/** Billing: the record written for a finished session (duration, late
    flag for day passes), the paginated listing, the revenue total and the
    list of late day-pass exits. The stored records are a ledger the
    record operation appends to. */
module BillingController {
  import opened Models
  import opened Seqs
  import opened Clock

  /** `parseFloat((durationMs / 3600000).toFixed(2))`, in hundredths of an
      hour: the nearest hundredth, halves rounded away from zero. */
  function DurationHundredths(durationMs: int): (h: int)
    ensures -18000 <= durationMs - h * 36000 <= 18000
    ensures durationMs >= 0 ==> 0 <= h && durationMs - h * 36000 < 18000
    ensures durationMs < 0 ==> h <= 0 && -18000 < durationMs - h * 36000
  {
    if durationMs >= 0 then (durationMs + 18000) / 36000
    else -((18000 - durationMs) / 36000)
  }

  /** A whole number of hours is recorded exactly. */
  lemma {:induction false} DurationOfWholeHours(n: nat)
    ensures DurationHundredths(n * HourMs) == 100 * n
  {
    var h := DurationHundredths(n * HourMs);
    assert -18000 <= (100 * n - h) * 36000 < 18000;
  }

  /** A longer stay never records a shorter duration. */
  lemma DurationMonotone(a: int, b: int)
    requires a <= b
    ensures DurationHundredths(a) <= DurationHundredths(b)
  {
    var ha, hb := DurationHundredths(a), DurationHundredths(b);
    assert (ha - hb) * 36000 < 36000 + (a - b) || ha <= hb;
  }

  /** A day-pass session is late when it exits after 22:00 of its entry day;
      an hourly session is never late. */
  predicate IsLate(billing: BillingType, entry: Time, exit: Time) {
    billing == Daypass && exit > ClosingTime(entry)
  }

  /** Started hours past closing time, as reported in the admin alert. */
  function LateHours(entry: Time, exit: Time): (h: int)
    requires exit > ClosingTime(entry)
    ensures h >= 1
    ensures (h - 1) * HourMs < exit - ClosingTime(entry) <= h * HourMs
  {
    HoursCeil(exit - ClosingTime(entry))
  }

  /** Leaving on a later day than the entry day always makes a day pass late. */
  lemma LateWhenExitOnLaterDay(entry: Time, exit: Time)
    requires DayStart(exit) > DayStart(entry)
    ensures IsLate(Daypass, entry, exit)
    ensures !IsLate(Hourly, entry, exit)
  {
    assert DayStart(exit) >= DayStart(entry) + DayMs;
  }

  /** Leaving no later than 22:00 of the entry day is never late. */
  lemma NotLateBeforeClosing(billing: BillingType, entry: Time, exit: Time)
    requires DayStart(exit) == DayStart(entry) && exit - DayStart(exit) <= 22 * HourMs
    ensures !IsLate(billing, entry, exit)
  {
  }

  /** Entering at 20:00 and leaving at 23:30 the same day on a day pass is
      late by two started hours. */
  lemma {:induction false} LateByTwoHours(day: int)
    ensures var entry := day * DayMs + 20 * HourMs;
      var exit := day * DayMs + 23 * HourMs + HourMs / 2;
      IsLate(Daypass, entry, exit) && LateHours(entry, exit) == 2
  {
    DayStartOf(day, 20 * HourMs);
  }

  datatype RecordError = MissingExitTime

  /** `createBillingRecord`: the billing record of a session, populated with
      its own vehicle and slot, and its amount, stamped `now`. A session
      without an exit time fails schema validation. */
  function MakeRecord(s: Session, v: Vehicle, slot: Slot, amount: int, now: Time): (r: Result<BillingRecord, RecordError>)
    requires v.id == s.vehicleId && slot.id == s.slotId
    ensures r.Err? <==> s.exitTime.None?
    ensures r.Ok? ==>
      var b := r.value;
      && b.sessionId == s.id && b.vehicleNumber == v.numberPlate && b.vehicleType == v.vehicleType
      && b.slotNumber == slot.slotNumber && b.entryTime == s.entryTime && b.exitTime == s.exitTime.value
      && b.billingType == s.billingType && b.totalAmount == amount && b.createdAt == now
      && b.durationHundredths == DurationHundredths(b.exitTime - b.entryTime)
      && (b.isLate <==> IsLate(s.billingType, s.entryTime, b.exitTime))
  {
    match s.exitTime
    case None => Err(MissingExitTime)
    case Some(exit) =>
      Ok(BillingRecord(s.id, v.numberPlate, v.vehicleType, slot.slotNumber, s.entryTime, exit,
                       s.billingType, amount, DurationHundredths(exit - s.entryTime),
                       IsLate(s.billingType, s.entryTime, exit), now))
  }

  /** Only day-pass records are flagged late, and a flagged record is at
      least one started hour past closing time. */
  lemma LateRecordIsDaypass(s: Session, v: Vehicle, slot: Slot, amount: int, now: Time)
    requires v.id == s.vehicleId && slot.id == s.slotId
    requires MakeRecord(s, v, slot, amount, now).Ok?
    ensures var b := MakeRecord(s, v, slot, amount, now).value;
      b.isLate ==> b.billingType == Daypass && LateHours(b.entryTime, b.exitTime) >= 1
    ensures var b := MakeRecord(s, v, slot, amount, now).value;
      b.billingType == Hourly ==> !b.isLate
  {
  }

  /** The stored billing records, in insertion order. */
  class Ledger {
    var records: seq<BillingRecord>

    constructor()
      ensures records == []
    {
      records := [];
    }

    /** `createBillingRecord`: builds the record and saves it; nothing is
        saved when the record is invalid. */
    method CreateBillingRecord(s: Session, v: Vehicle, slot: Slot, amount: int, now: Time)
      returns (r: Result<BillingRecord, RecordError>)
      requires v.id == s.vehicleId && slot.id == s.slotId
      modifies this
      ensures r == MakeRecord(s, v, slot, amount, now)
      ensures records == if r.Ok? then old(records) + [r.value] else old(records)
      ensures r.Ok? ==> TotalRevenue(records) == old(TotalRevenue(records)) + amount
    {
      if s.exitTime.None? {
        return Err(MissingExitTime);
      }
      var exit := s.exitTime.value;
      var durationMs := exit - s.entryTime;
      var durationHours := DurationHundredths(durationMs);
      var isLate := false;
      if s.billingType == Daypass {
        var closing := ClosingTime(s.entryTime);
        if exit > closing {
          isLate := true;
        }
      }
      var record := BillingRecord(s.id, v.numberPlate, v.vehicleType, slot.slotNumber, s.entryTime,
                                  exit, s.billingType, amount, durationHours, isLate, now);
      RevenueAfterRecord(records, record);
      records := records + [record];
      r := Ok(record);
    }
  }

  function ExitKey(b: BillingRecord): int {
    b.exitTime
  }

  /** A request field with its default when absent. */
  function OrDefault(o: Option<int>, d: int): int {
    match o
    case None => d
    case Some(x) => x
  }

  /** How many documents a cursor `limit(n)` lets through: 0 means no limit,
      a negative limit counts as its absolute value. */
  function LimitCount(limit: int, available: nat): (n: nat)
    ensures limit == 0 ==> n == available
    ensures limit != 0 ==> n == limit || n == -limit
  {
    if limit == 0 then available
    else if limit < 0 then -limit
    else limit
  }

  datatype RecordPage = RecordPage(data: seq<BillingRecord>, total: nat)

  datatype ListError = NegativeSkip

  /** `(page - 1) * limit`, with the request defaults 1 and 10. */
  function SkipCount(page: Option<int>, limit: Option<int>): int {
    (OrDefault(page, 1) - 1) * OrDefault(limit, 10)
  }

  /** `getAllBillingRecords`: records sorted by exit time, latest first,
      skipping `(page - 1) * limit` and keeping `limit`. A negative skip is
      refused by the database. */
  function ListRecords(records: seq<BillingRecord>, page: Option<int>, limit: Option<int>): (r: Result<RecordPage, ListError>)
    ensures r.Err? <==> SkipCount(page, limit) < 0
    ensures r.Ok? ==> r.value.total == |records|
    ensures r.Ok? ==> SortedDesc(r.value.data, ExitKey)
    ensures r.Ok? ==> forall x :: x in r.value.data ==> x in records
    ensures r.Ok? ==>
      var skip := SkipCount(page, limit);
      var take := LimitCount(OrDefault(limit, 10), |records|);
      && |r.value.data| == (if skip >= |records| then 0 else if take < |records| - skip then take else |records| - skip)
      && forall i :: 0 <= i < |r.value.data| ==> r.value.data[i] == SortDesc(records, ExitKey)[skip + i]
  {
    var skip := SkipCount(page, limit);
    if skip < 0 then Err(NegativeSkip)
    else
      var sorted := SortDesc(records, ExitKey);
      var take := LimitCount(OrDefault(limit, 10), |records|);
      WindowOfSorted(sorted, ExitKey, skip, take);
      SortDescSameElements(records, ExitKey);
      Ok(RecordPage(Window(sorted, skip, take), |records|))
  }

  /** Position `i` at page size `limit` is `i % limit` past the page start `(i / limit) * limit`. */
  lemma PageOf(i: nat, limit: nat)
    requires 0 < limit
    ensures 0 <= (i / limit) * limit <= i
    ensures i - (i / limit) * limit == i % limit < limit
  {
  }

  /** With a positive page size, the record at position `i` of the sorted
      listing is shown on page `i / limit + 1`, at position `i % limit`. */
  lemma {:induction false} RecordOnItsPage(records: seq<BillingRecord>, limit: nat, i: nat)
    requires 0 < limit && i < |records|
    ensures var r := ListRecords(records, Some(i / limit + 1), Some(limit));
      && r.Ok? && i % limit < |r.value.data|
      && r.value.data[i % limit] == SortDesc(records, ExitKey)[i]
  {
    PageOf(i, limit);
    var q, m := i / limit, i % limit;
    var skip := q * limit;
    assert SkipCount(Some(q + 1), Some(limit)) == skip;
    assert LimitCount(limit, |records|) == limit;
    assert skip + m == i;
  }

  function Amount(b: BillingRecord): int {
    b.totalAmount
  }

  /** `getTotalRevenue`: the sum of all record amounts (0 with no records). */
  function TotalRevenue(records: seq<BillingRecord>): int {
    SumOf(records, Amount)
  }

  /** Saving a record adds exactly its amount to the revenue. */
  lemma RevenueAfterRecord(records: seq<BillingRecord>, b: BillingRecord)
    ensures TotalRevenue(records + [b]) == TotalRevenue(records) + b.totalAmount
  {
    SumOfAppend(records, [b], Amount);
  }

  /** Revenue over amounts that are never negative is never negative. */
  lemma {:induction false} RevenueNonNegative(records: seq<BillingRecord>)
    requires forall i :: 0 <= i < |records| ==> records[i].totalAmount >= 0
    ensures TotalRevenue(records) >= 0
  {
    if records != [] {
      RevenueNonNegative(records[1..]);
    }
  }

  predicate LateDaypass(b: BillingRecord) {
    b.isLate && b.billingType == Daypass
  }

  /** `getLateVehicles`: the 20 latest late day-pass records, latest exit
      first; a late record left out exits no later than every one listed. */
  function LateVehicles(records: seq<BillingRecord>): (r: seq<BillingRecord>)
    ensures |r| <= 20
    ensures forall x :: x in r ==> x in records && x.isLate && x.billingType == Daypass
    ensures SortedDesc(r, ExitKey)
    ensures forall x :: x in records && LateDaypass(x) && x !in r ==>
              |r| == 20 && forall j :: 0 <= j < 20 ==> ExitKey(r[j]) >= ExitKey(x)
    ensures multiset(r) <= multiset(Filter(records, LateDaypass))
    ensures |r| == if |Filter(records, LateDaypass)| < 20 then |Filter(records, LateDaypass)| else 20
  {
    Top(records, LateDaypass, ExitKey, 20)
  }
}
