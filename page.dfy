/**
 * The vaccination page (src/app/page.tsx): its own inline copy of the
 * classification and sort logic, the table-header sort toggle, the edit and
 * add-vaccination form state, and what each table row shows.
 */
module Page {
  import opened Optional
  import opened Collation
  import opened DateUtils
  import opened VaccinationUtils
  import opened StableSort
  import opened SortingUtils

  /**
   * The due date as the page computes it inline:
   * `new Date(c.getFullYear() + 1, c.getMonth(), c.getDate())` when completed.
   */
  function InlineDueDate(record: VaccinationRecord): (r: Option<Instant>)
    ensures record.completedAt.Some? ==> r == Some(CalculateDueDate(record.completedAt.value))
    ensures record.completedAt.None? ==> r == None
  {
    if record.completedAt.Some? then
      var c := record.completedAt.value.date;
      Some(Instant(NormalizeDate(c.year + 1, c.month, c.day), 0))
    else None
  }

  /** `dueDate && dueDate < new Date()`: a missing due date counts as not overdue. */
  function InlineIsOverdue(record: VaccinationRecord, now: Instant): (r: bool)
    ensures r <==> GetVaccinationStatus(record, now).isOverdue
  {
    var dueDate := InlineDueDate(record);
    dueDate.Some? && Before(dueDate.value, now)
  }

  /** The inline urgency score: `a.completedAt ? (aIsOverdue ? 2 : 0) : 1`. */
  function InlineUrgency(record: VaccinationRecord, now: Instant): (r: int)
    ensures r == GetUrgencyScore(record, now)
  {
    if record.completedAt.Some? then (if InlineIsOverdue(record, now) then 2 else 0) else 1
  }

  /** The inline status label; note 'Complete', where `getStatusText` says 'Completed'. */
  function InlineStatusLabel(record: VaccinationRecord, now: Instant): (r: string)
    ensures GetVaccinationStatus(record, now).status == Completed ==> r == "Complete"
    ensures GetVaccinationStatus(record, now).status != Completed ==>
      r == GetStatusText(GetVaccinationStatus(record, now).status)
  {
    if record.completedAt.Some? then (if InlineIsOverdue(record, now) then "Overdue" else "Complete")
    else "Due Soon"
  }

  /** The different label still orders the statuses exactly as the urgency scores do. */
  lemma InlineLabelOrderMatchesUrgency(a: VaccinationRecord, b: VaccinationRecord, now: Instant)
    ensures LocaleCompare(InlineStatusLabel(a, now), InlineStatusLabel(b, now))
      == Sign(GetUrgencyScore(a, now) - GetUrgencyScore(b, now))
  {
  }

  /** The sort key of the inline due-date comparator, with the synthetic date for a record never completed. */
  function InlineDueDateKey(record: VaccinationRecord, now: Instant): (r: Instant)
    ensures r == DueDateKey(record, now)
  {
    if record.completedAt.Some? then InlineDueDate(record).value
    else Instant(NormalizeDate(now.date.year + 1, now.date.month, now.date.day), 0)
  }

  /** The comparator the page passes to `pet.records.sort`. */
  function InlineComparator(sortBy: SortBy, direction: SortDirection, now: Instant, a: VaccinationRecord, b: VaccinationRecord): (r: int)
    ensures sortBy == Urgency ==> r == SortByUrgency(a, b, now)
    ensures sortBy == Status && direction == Asc ==>
      r == LocaleCompare(InlineStatusLabel(a, now), InlineStatusLabel(b, now))
    ensures sortBy == Status && direction == Desc ==>
      r == -LocaleCompare(InlineStatusLabel(a, now), InlineStatusLabel(b, now))
    ensures sortBy == DueDate ==> r == SortByDueDate(a, b, direction, now)
  {
    match sortBy
    case Urgency =>
      InlineUrgency(a, now) - InlineUrgency(b, now)
    case Status =>
      var result := LocaleCompare(InlineStatusLabel(a, now), InlineStatusLabel(b, now));
      if direction == Asc then result else -result
    case DueDate =>
      var result := CompareInstants(InlineDueDateKey(a, now), InlineDueDateKey(b, now));
      if direction == Asc then result else -result
  }

  /** The inline comparator and the one in the shared sorting module always agree in sign. */
  lemma InlineComparatorAgrees(sortBy: SortBy, direction: SortDirection, now: Instant, a: VaccinationRecord, b: VaccinationRecord)
    ensures Sign(InlineComparator(sortBy, direction, now, a, b)) == Sign(CompareRecords(sortBy, direction, now, a, b))
  {
    if sortBy == Status {
      InlineLabelOrderMatchesUrgency(a, b, now);
      StatusTextOrderMatchesUrgency(GetVaccinationStatus(a, now).status, GetVaccinationStatus(b, now).status);
    }
  }

  /** The order `pet.records.sort` with the inline comparator leaves the records in. */
  function InlineSorted(records: seq<VaccinationRecord>, sortBy: SortBy, direction: SortDirection, now: Instant): seq<VaccinationRecord> {
    InsertionSort((a, b) => InlineComparator(sortBy, direction, now, a, b), records)
  }

  /**
   * On the same input sequence, the page's sort gives the order
   * `sortVaccinationRecords` would produce. The page's input is the order the
   * previous render left (see PageOrderDependsOnEarlierSorts).
   */
  lemma InlineSortMatchesLibrary(records: seq<VaccinationRecord>, sortBy: SortBy, direction: SortDirection, now: Instant)
    ensures InlineSorted(records, sortBy, direction, now) == SortedRecords(records, sortBy, direction, now)
  {
    forall a, b
      ensures InlineComparator(sortBy, direction, now, a, b) > 0 <==> CompareRecords(sortBy, direction, now, a, b) > 0
    {
      InlineComparatorAgrees(sortBy, direction, now, a, b);
    }
    SameDecisionsSameSort(
      (a, b) => InlineComparator(sortBy, direction, now, a, b),
      (a, b) => CompareRecords(sortBy, direction, now, a, b),
      records);
  }

  /**
   * The page sorts the pet's own array, so each render sorts the order the
   * previous render left, not the fetched order. Two completed records, b due
   * before a: after a due-date sort, a status sort keeps b first (the two tie),
   * while `sortVaccinationRecords` on the fetched order [a, b] keeps a first.
   */
  lemma PageOrderDependsOnEarlierSorts(a: VaccinationRecord, b: VaccinationRecord, now: Instant)
    requires a.completedAt == Some(Instant(Date(2025, 2, 1), 0))
    requires b.completedAt == Some(Instant(Date(2025, 0, 1), 0))
    requires now == Instant(Date(2025, 5, 1), 0)
    ensures InlineSorted([a, b], DueDate, Asc, now) == [b, a]
    ensures InlineSorted(InlineSorted([a, b], DueDate, Asc, now), Status, Asc, now) == [b, a]
    ensures SortedRecords([a, b], Status, Asc, now) == [a, b]
  {
    var byDate := (x, y) => InlineComparator(DueDate, Asc, now, x, y);
    var byStatus := (x, y) => InlineComparator(Status, Asc, now, x, y);
    var library := (x, y) => CompareRecords(Status, Asc, now, x, y);
    assert [a, b][..1] == [a];
    assert [b, a][..1] == [b];
    assert InsertionSort(byDate, [a]) == [a];
    assert byDate(a, b) > 0;
    assert Insert(byDate, [a], b) == [b, a];
    assert InsertionSort(byStatus, [b]) == [b];
    assert byStatus(b, a) == 0;
    assert Insert(byStatus, [b], a) == [b, a];
    assert InsertionSort(library, [a]) == [a];
    assert library(a, b) == 0;
    assert Insert(library, [a], b) == [a, b];
  }

  /** What the Action cell of a row holds. */
  datatype ActionCell = NoAction | DateEditor | MarkCompleteButton

  /** What one table row shows. */
  datatype RowView = RowView(
    badge: VaccinationStatus,
    lastCompleted: Option<Instant>,
    dueDate: Option<Instant>,
    action: ActionCell)

  /**
   * One table row: the badge, the two dates, and the action cell, which is
   * empty for a completed record and otherwise holds the date editor for the
   * record being edited or the Mark Complete button.
   */
  function Row(record: VaccinationRecord, now: Instant, editingRecord: Option<int>): (r: RowView)
    ensures r.badge == GetVaccinationStatus(record, now).status
    ensures r.lastCompleted == GetVaccinationStatus(record, now).lastCompleted
    ensures r.dueDate == GetVaccinationStatus(record, now).dueDate
    ensures r.action != NoAction <==> r.badge == DueSoon || r.badge == Overdue
    ensures r.action == DateEditor <==> r.badge != Completed && editingRecord == Some(record.id)
  {
    var dueDate := InlineDueDate(record);
    var isOverdue := InlineIsOverdue(record, now);
    var badge :=
      if record.completedAt.Some? then (if isOverdue then Overdue else Completed)
      else DueSoon;
    var showAction := !(record.completedAt.Some? && !isOverdue);
    var action :=
      if !showAction then NoAction
      else if editingRecord == Some(record.id) then DateEditor
      else MarkCompleteButton;
    RowView(badge, record.completedAt, dueDate, action)
  }

  /** A column header that can be clicked: the urgency order has no header. */
  type SortColumn = c: SortBy | c != Urgency witness Status

  datatype SortState = SortState(sortBy: SortBy, direction: SortDirection)

  function Flip(d: SortDirection): SortDirection {
    if d == Asc then Desc else Asc
  }

  /** The state change `handleSort(column)` makes. */
  function NextSortState(s: SortState, column: SortColumn): (r: SortState)
    ensures r.sortBy == column
    ensures r.direction == Asc <==> s.sortBy != column || s.direction == Desc
  {
    if s.sortBy == column then SortState(s.sortBy, Flip(s.direction))
    else SortState(column, Asc)
  }

  /** Clicking the active column twice restores the state. */
  lemma HandleSortTwiceRestores(s: SortState, column: SortColumn)
    requires s.sortBy == column
    ensures NextSortState(NextSortState(s, column), column) == s
  {
  }

  /** Clicking a new column twice ends it descending. */
  lemma HandleSortNewColumnTwice(s: SortState, column: SortColumn)
    requires s.sortBy != column
    ensures NextSortState(s, column) == SortState(column, Asc)
    ensures NextSortState(NextSortState(s, column), column) == SortState(column, Desc)
  {
  }

  /** The state after a sequence of header clicks. */
  function AfterClicks(s: SortState, clicks: seq<SortColumn>): SortState
    decreases |clicks|
  {
    if clicks == [] then s else AfterClicks(NextSortState(s, clicks[0]), clicks[1..])
  }

  /** After any click the urgency order is gone for good: the last click decides the column. */
  lemma {:induction false} ClicksNeverReturnToUrgency(s: SortState, clicks: seq<SortColumn>)
    requires clicks != []
    ensures AfterClicks(s, clicks).sortBy == clicks[|clicks| - 1]
    ensures AfterClicks(s, clicks).sortBy != Urgency
    decreases |clicks|
  {
    if |clicks| > 1 {
      ClicksNeverReturnToUrgency(NextSortState(s, clicks[0]), clicks[1..]);
    }
  }

  /** A pet and its records array, which the page sorts in place. */
  class Pet {
    var id: int
    var name: string
    var records: array<VaccinationRecord>

    constructor (id: int, name: string, records: array<VaccinationRecord>)
      ensures this.id == id && this.name == name && this.records == records
    {
      this.id := id;
      this.name := name;
      this.records := records;
    }
  }

  /** The page component's state: the `useState` fields that the core reads or resets. */
  class HomePage {
    var sortBy: SortBy
    var sortDirection: SortDirection
    var editingRecord: Option<int>
    var completionDate: string
    var showAddModal: bool
    var selectedPetId: Option<int>
    var newVaccinationType: string
    var newCompletionDate: string

    function Sorting(): (r: SortState)
      reads this
      ensures r.sortBy == sortBy && r.direction == sortDirection
    {
      SortState(sortBy, sortDirection)
    }

    constructor ()
      ensures Sorting() == SortState(Urgency, Asc)
      ensures editingRecord == None && completionDate == ""
      ensures !showAddModal && selectedPetId == None
      ensures newVaccinationType == "" && newCompletionDate == ""
    {
      sortBy := Urgency;
      sortDirection := Asc;
      editingRecord := None;
      completionDate := "";
      showAddModal := false;
      selectedPetId := None;
      newVaccinationType := "";
      newCompletionDate := "";
    }

    /** `handleSort`: flips the direction of the active column, or switches to a new column ascending. */
    method HandleSort(column: SortColumn)
      modifies this`sortBy, this`sortDirection
      ensures Sorting() == NextSortState(old(Sorting()), column)
      ensures old(sortBy) == column ==> sortBy == column && sortDirection == Flip(old(sortDirection))
      ensures old(sortBy) != column ==> sortBy == column && sortDirection == Asc
    {
      if sortBy == column {
        sortDirection := if sortDirection == Asc then Desc else Asc;
      } else {
        sortBy := column;
        sortDirection := Asc;
      }
    }

    /** `markVaccinationComplete`: opens the date editor on a record, prefilled with today's date. */
    method MarkVaccinationComplete(recordId: int, today: string)
      modifies this`editingRecord, this`completionDate
      ensures editingRecord == Some(recordId) && completionDate == today
    {
      editingRecord := Some(recordId);
      completionDate := today;
    }

    /** `cancelEdit`: closes the date editor and clears its input. */
    method CancelEdit()
      modifies this`editingRecord, this`completionDate
      ensures editingRecord == None && completionDate == ""
    {
      editingRecord := None;
      completionDate := "";
    }

    /** `openAddModal`: shows the add form for a pet, prefilled with today's date. */
    method OpenAddModal(petId: int, today: string)
      modifies this`selectedPetId, this`showAddModal, this`newCompletionDate
      ensures selectedPetId == Some(petId) && showAddModal && newCompletionDate == today
    {
      selectedPetId := Some(petId);
      showAddModal := true;
      newCompletionDate := today;
    }

    /** `closeAddModal`: hides the add form and clears all of its fields. */
    method CloseAddModal()
      modifies this`showAddModal, this`selectedPetId, this`newVaccinationType, this`newCompletionDate
      ensures !showAddModal && selectedPetId == None && newVaccinationType == "" && newCompletionDate == ""
    {
      showAddModal := false;
      selectedPetId := None;
      newVaccinationType := "";
      newCompletionDate := "";
    }

    /**
     * `pet.records.sort(...)` during rendering: reorders the pet's own array in
     * place, into the order the shared sorting module would give for the
     * array's current contents, which are in the order the previous sort left.
     */
    method SortPetRecords(pet: Pet, now: Instant)
      modifies pet.records
      ensures pet.records[..] == InlineSorted(old(pet.records[..]), sortBy, sortDirection, now)
      ensures pet.records[..] == SortedRecords(old(pet.records[..]), sortBy, sortDirection, now)
    {
      ghost var before := pet.records[..];
      var column, direction := sortBy, sortDirection;
      SortInPlace(pet.records, (a, b) => InlineComparator(column, direction, now, a, b));
      InlineSortMatchesLibrary(before, column, direction, now);
    }

    /** The rows of one pet's table, in display order. */
    function Rows(records: seq<VaccinationRecord>, now: Instant): (r: seq<RowView>)
      reads this
      ensures |r| == |records|
      ensures forall i :: 0 <= i < |r| ==> r[i] == Row(records[i], now, editingRecord)
    {
      var editing := editingRecord;
      seq(|records|, i requires 0 <= i < |records| => Row(records[i], now, editing))
    }
  }
}
