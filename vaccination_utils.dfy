/**
 * Status classification of a vaccination record (src/lib/vaccinationUtils.ts).
 */
module VaccinationUtils {
  import opened Optional
  import opened DateUtils
  import opened Collation

  datatype VaccinationStatus = Completed | DueSoon | Overdue

  /** The kind of vaccine; `interval` (months) is carried but never read below. */
  datatype VaccinationType = VaccinationType(id: int, name: string, interval: int)

  datatype VaccinationRecord = VaccinationRecord(id: int, completedAt: Option<Instant>, vaccinationType: VaccinationType)

  /** The object `getVaccinationStatus` returns. */
  datatype StatusDetails = StatusDetails(
    status: VaccinationStatus,
    lastCompleted: Option<Instant>,
    dueDate: Option<Instant>,
    isOverdue: bool)

  /**
   * `getVaccinationStatus`, evaluated at one current instant `now`. A record
   * never completed is due soon; a completed one is overdue once its due date
   * is strictly before now, and completed otherwise.
   */
  function GetVaccinationStatus(record: VaccinationRecord, now: Instant): (r: StatusDetails)
    ensures r.lastCompleted == record.completedAt
    ensures r.status == DueSoon <==> record.completedAt.None?
    ensures r.dueDate.None? <==> r.lastCompleted.None?
    ensures r.isOverdue <==> r.status == Overdue
    ensures record.completedAt.None? ==> r.dueDate == None && !r.isOverdue
    ensures record.completedAt.Some? ==>
      && r.dueDate == Some(CalculateDueDate(record.completedAt.value))
      && (r.status == Overdue <==> Before(r.dueDate.value, now))
      && (r.status == Completed <==> AtOrBefore(now, r.dueDate.value))
  {
    var lastCompleted := record.completedAt;
    var dueDate := if lastCompleted.Some? then Some(CalculateDueDate(lastCompleted.value)) else None;
    var isRecordOverdue := if dueDate.Some? then IsOverdue(dueDate.value, now) else false;
    var status :=
      if record.completedAt.Some? then (if isRecordOverdue then Overdue else Completed)
      else DueSoon;
    StatusDetails(status, lastCompleted, dueDate, isRecordOverdue)
  }

  /** The vaccination type, and so its `interval`, has no influence on the status. */
  lemma StatusIgnoresVaccinationType(record: VaccinationRecord, t: VaccinationType, now: Instant)
    ensures GetVaccinationStatus(record.(vaccinationType := t), now) == GetVaccinationStatus(record, now)
  {
  }

  /** The switch inside `getUrgencyScore`; its `default` branch cannot be reached. */
  function StatusUrgency(status: VaccinationStatus): (r: int)
    ensures 0 <= r <= 2
    ensures r == 0 <==> status == Completed
    ensures r == 2 <==> status == Overdue
  {
    match status
    case Completed => 0
    case DueSoon => 1
    case Overdue => 2
  }

  /** `getUrgencyScore`: completed 0, due soon 1, overdue 2. */
  function GetUrgencyScore(record: VaccinationRecord, now: Instant): (r: int)
    ensures 0 <= r <= 2
    ensures r == 1 <==> record.completedAt.None?
    ensures r == 2 <==> record.completedAt.Some? && Before(CalculateDueDate(record.completedAt.value), now)
  {
    StatusUrgency(GetVaccinationStatus(record, now).status)
  }

  /** `getStatusText`; its 'Unknown' branch cannot be reached. */
  function GetStatusText(status: VaccinationStatus): (r: string)
    ensures r == "Completed" || r == "Due Soon" || r == "Overdue"
  {
    match status
    case Completed => "Completed"
    case DueSoon => "Due Soon"
    case Overdue => "Overdue"
  }

  /** Different statuses have different labels. */
  lemma StatusTextInjective(a: VaccinationStatus, b: VaccinationStatus)
    ensures GetStatusText(a) == GetStatusText(b) ==> a == b
  {
  }

  /** Comparing the labels gives the same answer as comparing the urgency scores. */
  lemma StatusTextOrderMatchesUrgency(a: VaccinationStatus, b: VaccinationStatus)
    ensures LocaleCompare(GetStatusText(a), GetStatusText(b)) == Sign(StatusUrgency(a) - StatusUrgency(b))
  {
  }

  /** A vaccination of 15 July 2024 is due 15 July 2025, so on 1 August 2025 it is overdue. */
  lemma ExampleOverdue(t: VaccinationType)
    ensures var r := GetVaccinationStatus(
      VaccinationRecord(1, Some(Instant(Date(2024, 6, 15), 0)), t), Instant(Date(2025, 7, 1), 0));
      r.dueDate == Some(Instant(Date(2025, 6, 15), 0)) && r.status == Overdue && r.isOverdue
  {
  }

  /** A vaccination of 15 March 2025 is due 15 March 2026, so on 30 June 2025 it is completed. */
  lemma ExampleCompleted(t: VaccinationType)
    ensures var r := GetVaccinationStatus(
      VaccinationRecord(2, Some(Instant(Date(2025, 2, 15), 0)), t), Instant(Date(2025, 5, 30), 0));
      r.dueDate == Some(Instant(Date(2026, 2, 15), 0)) && r.status == Completed && !r.isOverdue
  {
  }
}
