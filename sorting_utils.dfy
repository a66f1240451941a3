/**
 * Sorting of vaccination records (src/lib/sortingUtils.ts): a copy of the
 * input array is sorted with one of three comparators.
 */
module SortingUtils {
  import opened Optional
  import opened Collation
  import opened DateUtils
  import opened VaccinationUtils
  import opened StableSort

  datatype SortBy = Urgency | Status | DueDate

  datatype SortDirection = Asc | Desc

  /** `sortByUrgency`: ascending urgency score, whatever the direction. */
  function SortByUrgency(a: VaccinationRecord, b: VaccinationRecord, now: Instant): (r: int)
    ensures r < 0 <==> GetUrgencyScore(a, now) < GetUrgencyScore(b, now)
    ensures r == 0 <==> GetVaccinationStatus(a, now).status == GetVaccinationStatus(b, now).status
  {
    GetUrgencyScore(a, now) - GetUrgencyScore(b, now)
  }

  /** `sortByStatus`: the status labels compared as strings, reversed for `desc`. */
  function SortByStatus(a: VaccinationRecord, b: VaccinationRecord, direction: SortDirection, now: Instant): (r: int)
    ensures r == 0 <==> GetVaccinationStatus(a, now).status == GetVaccinationStatus(b, now).status
    ensures direction == Asc ==> (r < 0 <==> GetUrgencyScore(a, now) < GetUrgencyScore(b, now))
    ensures direction == Desc ==> (r < 0 <==> GetUrgencyScore(a, now) > GetUrgencyScore(b, now))
  {
    var aStatus := GetStatusText(GetVaccinationStatus(a, now).status);
    var bStatus := GetStatusText(GetVaccinationStatus(b, now).status);
    StatusTextOrderMatchesUrgency(GetVaccinationStatus(a, now).status, GetVaccinationStatus(b, now).status);
    var result := LocaleCompare(aStatus, bStatus);
    if direction == Asc then result else -result
  }

  /**
   * The date a record is sorted by: its due date, or for a record never
   * completed the synthetic `new Date(now.getFullYear() + 1, now.getMonth(), now.getDate())`.
   */
  function DueDateKey(record: VaccinationRecord, now: Instant): (r: Instant)
    ensures r.msOfDay == 0
    ensures record.completedAt.Some? ==> r == CalculateDueDate(record.completedAt.value)
    ensures record.completedAt.None? ==> r == CalculateDueDate(now)
  {
    if record.completedAt.Some? then CalculateDueDate(record.completedAt.value)
    else Instant(NormalizeDate(now.date.year + 1, now.date.month, now.date.day), 0)
  }

  /** `sortByDueDate`: chronological by `DueDateKey`, reversed for `desc`. */
  function SortByDueDate(a: VaccinationRecord, b: VaccinationRecord, direction: SortDirection, now: Instant): (r: int)
    ensures r == 0 <==> DueDateKey(a, now) == DueDateKey(b, now)
    ensures direction == Asc ==> (r < 0 <==> Before(DueDateKey(a, now), DueDateKey(b, now)))
    ensures direction == Desc ==> (r < 0 <==> Before(DueDateKey(b, now), DueDateKey(a, now)))
  {
    var result := CompareInstants(DueDateKey(a, now), DueDateKey(b, now));
    if direction == Asc then result else -result
  }

  /** The comparator passed to `sort`; its `default` branch cannot be reached. */
  function CompareRecords(sortBy: SortBy, direction: SortDirection, now: Instant, a: VaccinationRecord, b: VaccinationRecord): (r: int)
    ensures sortBy == Urgency ==> r == SortByUrgency(a, b, now)
    ensures sortBy == Status ==> r == SortByStatus(a, b, direction, now)
    ensures sortBy == DueDate ==> r == SortByDueDate(a, b, direction, now)
  {
    match sortBy
    case Urgency => SortByUrgency(a, b, now)
    case Status => SortByStatus(a, b, direction, now)
    case DueDate => SortByDueDate(a, b, direction, now)
  }

  /** Each of the three comparators is consistent. */
  lemma CompareRecordsIsTotalPreorder(sortBy: SortBy, direction: SortDirection, now: Instant)
    ensures TotalPreorder((a, b) => CompareRecords(sortBy, direction, now, a, b))
  {
    var cmp := (a, b) => CompareRecords(sortBy, direction, now, a, b);
    forall a, b, c | cmp(a, b) <= 0 && cmp(b, c) <= 0 ensures cmp(a, c) <= 0 {
      if sortBy == DueDate {
        BeforeIsStrictTotalOrder(DueDateKey(a, now), DueDateKey(b, now), DueDateKey(c, now));
        BeforeIsStrictTotalOrder(DueDateKey(c, now), DueDateKey(b, now), DueDateKey(a, now));
      }
    }
    forall a, b ensures cmp(a, b) > 0 <==> cmp(b, a) < 0 {
      if sortBy == DueDate {
        BeforeIsStrictTotalOrder(DueDateKey(a, now), DueDateKey(b, now), DueDateKey(a, now));
      }
    }
  }

  /**
   * `sortVaccinationRecords`: sorts a fresh copy, so the input array is left as
   * it was, and the result is the stable sort of the input by the chosen comparator.
   */
  method SortVaccinationRecords(records: array<VaccinationRecord>, sortBy: SortBy, direction: SortDirection, now: Instant)
    returns (sorted: array<VaccinationRecord>)
    ensures fresh(sorted)
    ensures records[..] == old(records[..])
    ensures sorted[..] == InsertionSort((a, b) => CompareRecords(sortBy, direction, now, a, b), records[..])
    ensures multiset(sorted[..]) == multiset(records[..])
    ensures Sorted((a, b) => CompareRecords(sortBy, direction, now, a, b), sorted[..])
    ensures SameTies((a, b) => CompareRecords(sortBy, direction, now, a, b), sorted[..], records[..])
  {
    var copy := records[..];
    sorted := new VaccinationRecord[|copy|](i requires 0 <= i < |copy| => copy[i]);
    assert sorted[..] == copy;
    var cmp := (a, b) => CompareRecords(sortBy, direction, now, a, b);
    SortInPlace(sorted, cmp);
    CompareRecordsIsTotalPreorder(sortBy, direction, now);
    InsertionSortPermutes(cmp, copy);
    InsertionSortSorted(cmp, copy);
    InsertionSortStable(cmp, copy);
  }

  /** The result of sorting `records` as the page shows it. */
  function SortedRecords(records: seq<VaccinationRecord>, sortBy: SortBy, direction: SortDirection, now: Instant): seq<VaccinationRecord> {
    InsertionSort((a, b) => CompareRecords(sortBy, direction, now, a, b), records)
  }

  /** Sorting by urgency ignores the direction and orders by non-decreasing score. */
  lemma UrgencySortOrdersByScore(records: seq<VaccinationRecord>, direction: SortDirection, now: Instant)
    ensures SortedRecords(records, Urgency, direction, now) == SortedRecords(records, Urgency, Asc, now)
    ensures var out := SortedRecords(records, Urgency, direction, now);
      forall i, j :: 0 <= i < j < |out| ==> GetUrgencyScore(out[i], now) <= GetUrgencyScore(out[j], now)
  {
    var cmp := (a, b) => CompareRecords(Urgency, direction, now, a, b);
    SameDecisionsSameSort(cmp, (a, b) => CompareRecords(Urgency, Asc, now, a, b), records);
    CompareRecordsIsTotalPreorder(Urgency, direction, now);
    InsertionSortSorted(cmp, records);
  }

  /** Sorting by status orders the labels ascending for `asc` and descending for `desc`. */
  lemma StatusSortOrdersByLabel(records: seq<VaccinationRecord>, direction: SortDirection, now: Instant)
    ensures var out := SortedRecords(records, Status, direction, now);
      forall i, j :: 0 <= i < j < |out| ==>
        var c := LocaleCompare(GetStatusText(GetVaccinationStatus(out[i], now).status),
                               GetStatusText(GetVaccinationStatus(out[j], now).status));
        if direction == Asc then c <= 0 else c >= 0
  {
    var cmp := (a, b) => CompareRecords(Status, direction, now, a, b);
    CompareRecordsIsTotalPreorder(Status, direction, now);
    InsertionSortSorted(cmp, records);
  }

  /** Sorting by due date orders the keys chronologically, or in reverse for `desc`. */
  lemma DueDateSortOrdersByDate(records: seq<VaccinationRecord>, direction: SortDirection, now: Instant)
    ensures var out := SortedRecords(records, DueDate, direction, now);
      forall i, j :: 0 <= i < j < |out| ==>
        if direction == Asc then AtOrBefore(DueDateKey(out[i], now), DueDateKey(out[j], now))
        else AtOrBefore(DueDateKey(out[j], now), DueDateKey(out[i], now))
  {
    var cmp := (a, b) => CompareRecords(DueDate, direction, now, a, b);
    CompareRecordsIsTotalPreorder(DueDate, direction, now);
    InsertionSortSorted(cmp, records);
  }

  /** Ascending status order and urgency order put the records in the same order. */
  lemma StatusAscMatchesUrgency(records: seq<VaccinationRecord>, now: Instant)
    ensures SortedRecords(records, Status, Asc, now) == SortedRecords(records, Urgency, Asc, now)
  {
    SameDecisionsSameSort(
      (a, b) => CompareRecords(Status, Asc, now, a, b),
      (a, b) => CompareRecords(Urgency, Asc, now, a, b),
      records);
  }

  /**
   * A record never completed and one completed on 15 August 2023: by ascending
   * due date the overdue one (due 15 August 2024) comes first whenever the
   * synthetic date one year from now is later than that.
   */
  lemma ExampleDueDateOrder(pending: VaccinationRecord, done: VaccinationRecord, now: Instant)
    requires pending.completedAt == None
    requires done.completedAt == Some(Instant(Date(2023, 7, 15), 0))
    requires Before(Instant(Date(2024, 7, 15), 0), CalculateDueDate(now))
    ensures SortedRecords([pending, done], DueDate, Asc, now) == [done, pending]
  {
    var cmp := (a, b) => CompareRecords(DueDate, Asc, now, a, b);
    assert [pending, done][..1] == [pending];
    assert InsertionSort(cmp, [pending]) == [pending];
    assert cmp(pending, done) > 0;
    assert Insert(cmp, [pending], done) == [done, pending];
  }
}
