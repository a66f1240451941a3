# Pet vaccination status engine — a Dafny model

This project models the vaccination status engine of a small pet-vaccination
tracker written in TypeScript (Next.js). The engine has three parts:

- the due-date arithmetic: a due date is one calendar year after the
  completion, at local midnight;
- the classification of each record as completed, due soon or overdue, with
  an urgency score and a display label;
- the sorting of a pet's records by urgency, status label or due date.

The page component holds its own inline copy of the classification and the
comparator. It also holds the sort-toggle state of the table headers and the
state of the edit and add-vaccination forms. The model covers that copy and
proves that, on the same array contents, it sorts exactly as the shared
library does. The page sorts its own state array on every render, so its input
is the order the previous render left, not the fetched order. The model shows
this dependence with an example (`PageOrderDependsOnEarlierSorts`).

Modules, one per source file or concept:

| module | file | models |
|---|---|---|
| `Optional` | optional.dfy | `T \| null` as `Option<T>` |
| `Collation` | collation.dfy | `localeCompare` on the labels, and the sign of a comparator result |
| `DateUtils` | date_utils.dfy | `src/lib/dateUtils.ts` |
| `VaccinationUtils` | vaccination_utils.dfy | `src/lib/vaccinationUtils.ts` |
| `StableSort` | stable_sort.dfy | `Array.prototype.sort` with a comparator (stable, ECMA-262 2019 section 22.1.3.27) |
| `SortingUtils` | sorting_utils.dfy | `src/lib/sortingUtils.ts` |
| `Page` | page.dfy | the engine parts of `src/app/page.tsx` |

How the model represents things:

- **Dates.** A JavaScript `Date` is modelled by its local calendar fields. A
  `CalendarDate` is (year, month 0..11, day), and its type only admits days
  that exist. An `Instant` is a calendar date plus the milliseconds since
  local midnight. Instants are ordered lexicographically, which is
  chronological order.
- **The current time.** The source calls `new Date()` afresh inside every
  comparison. The model takes one `now` parameter for a whole evaluation.
- **Date overflow.** `new Date(y, m, d)` is `NormalizeDate`. It carries a day
  past the end of the month into the next month, so 29 February of a common
  year becomes 1 March.
- **Two-digit years.** The `Date` constructor reads a year argument in 0..99
  as 1900 + year (section 21.4.2.1 of ECMA-262). This is `ConstructorYear`.
  So a completion in the years -1..98 is due in the 1900s: 15 July 0024 is
  due 15 July 1925.
- **Comparator results.** A comparator's result is only read by its sign.
  `a.getTime() - b.getTime()` is therefore modelled by `CompareInstants`,
  which returns -1, 0 or 1 with the same sign.
- **Sorting.** `Array.prototype.sort` must be stable. It is modelled by
  insertion sort, as a function (`InsertionSort`) and as an in-place array
  method (`SortInPlace`). `StableSortIsUnique` proves that any output that is
  a sorted, stable permutation equals the insertion sort. So the model does
  not depend on which stable algorithm the engine runs.
- **Unreachable defaults.** The `default:` branches of the source's switches
  cannot be reached: `getUrgencyScore`'s `return 1`, `getStatusText`'s
  `'Unknown'`, the comparator's `return 0` and the page comparator's final
  `return 0`. In Dafny the `match` over a three-constructor datatype is
  exhaustive, so those branches do not exist.

Two details of the code that the model keeps:

- The vaccination type carries an `interval`, but the code never reads it:
  a due date is always one calendar year after the completion
  (`StatusIgnoresVaccinationType`).
- The page's inline copy labels a completed record 'Complete' rather than
  'Completed'. This changes no order (`InlineLabelOrderMatchesUrgency`), and
  the badge text on the page is still 'Completed'.

## Model

| member | source | states |
|---|---|---|
| `DateUtils.ConstructorYear` | src/lib/dateUtils.ts:27-28 | the `Date` constructor never yields a year in 0..99: such a year argument becomes 1900 + year, any other is kept |
| `DateUtils.NormalizeDate` | src/lib/dateUtils.ts:27-31 | the `Date` constructor's year is `ConstructorYear` of the argument; a day that exists is kept; a day past the month's end moves to the next month, at most 3 days in |
| `DateUtils.DaysInMonth` | src/lib/dateUtils.ts:27-31 | month lengths are 28..31; 31 exactly for January, March, May, July, August, October and December; 30 exactly for April, June, September and November; February has 29 days in a leap year and 28 otherwise |
| `DateUtils.CompareInstants` | src/lib/sortingUtils.ts:76 | the sign of `a.getTime() - b.getTime()`: negative iff a is before b, zero iff equal, positive iff b is before a |
| `DateUtils.BeforeIsStrictTotalOrder` | src/lib/dateUtils.ts:40 | `<` on dates is irreflexive, asymmetric, transitive and total |
| `DateUtils.CalculateDueDate` | src/lib/dateUtils.ts:26-32 | the due date is at midnight of the year the constructor reads for year+1: year+1, or year+1901 for a completion in -1..98; it keeps month and day whenever that day exists in the target year; otherwise the completion was 29 February and the due date is 1 March |
| `DateUtils.IsOverdue` | src/lib/dateUtils.ts:39-41 | overdue iff the due date compares strictly before now; a due date equal to now is not overdue |
| `DateUtils.LeapDayRollsToMarchFirst` | src/lib/dateUtils.ts:27-31 | a 29 February completion is due on 1 March of the year the constructor reads for the next year: the next year itself outside -1..98 |
| `DateUtils.DueDateNotInjective` | src/lib/dateUtils.ts:27-31 | 29 February and 1 March of a leap year give the same due date |
| `DateUtils.DueDateIgnoresTimeOfDay` | src/lib/dateUtils.ts:27-31 | completions on the same day at different times give the same due date |
| `DateUtils.DueDateAfterCompletion` | src/lib/dateUtils.ts:26-32 | the due date is strictly after the completion instant |
| `DateUtils.DueDateMonotone` | src/lib/dateUtils.ts:26-32 | an earlier or equal completion never gets a later due date, unless only the earlier one falls in the years -1..98 |
| `DateUtils.TwoDigitYearDueDate` | src/lib/dateUtils.ts:27-31 | a completion on 15 July 0024 is due 15 July 1925 |
| `DateUtils.DueDateNotMonotoneAcrossWindow` | src/lib/dateUtils.ts:27-31 | 1 June 0098 is due 1 June 1999 but the later 1 June 0099 is due 1 June 0100, so monotonicity fails across the window |
| `VaccinationUtils.GetVaccinationStatus` | src/lib/vaccinationUtils.ts:33-51 | due-soon iff never completed; then the due date is null and isOverdue false; when completed, dueDate is `calculateDueDate(completedAt)` and the status is overdue iff that date is before now, otherwise completed; isOverdue iff overdue |
| `VaccinationUtils.StatusIgnoresVaccinationType` | src/lib/vaccinationUtils.ts:18-51 | the vaccination type, and so its `interval`, never changes the result |
| `VaccinationUtils.StatusUrgency` | src/lib/vaccinationUtils.ts:61-70 | the score is in 0..2; 0 iff completed; 2 iff overdue |
| `VaccinationUtils.GetUrgencyScore` | src/lib/vaccinationUtils.ts:58-71 | the score is in 0..2; 1 iff never completed; 2 iff completed and the due date is before now |
| `VaccinationUtils.GetStatusText` | src/lib/vaccinationUtils.ts:78-89 | the label is 'Completed', 'Due Soon' or 'Overdue', never 'Unknown' |
| `VaccinationUtils.StatusTextInjective` | src/lib/vaccinationUtils.ts:78-89 | different statuses have different labels |
| `VaccinationUtils.StatusTextOrderMatchesUrgency` | src/lib/vaccinationUtils.ts:58-89 | comparing two labels gives the sign of the difference of their urgency scores |
| `VaccinationUtils.ExampleOverdue` | src/lib/vaccinationUtils.ts:33-51 | completed 15 July 2024, seen on 1 August 2025: due 15 July 2025, overdue |
| `VaccinationUtils.ExampleCompleted` | src/lib/vaccinationUtils.ts:33-51 | completed 15 March 2025, seen on 30 June 2025: due 15 March 2026, completed |
| `Collation.Sign` | src/lib/sortingUtils.ts:58 | a comparator result read by its sign: -1, 0 or 1 with the sign of the input |
| `Collation.LocaleCompare` | src/lib/sortingUtils.ts:58 | the result is -1, 0 or 1, and zero exactly when the strings are equal |
| `Collation.LocaleCompareAntisymmetric` | src/lib/sortingUtils.ts:58 | swapping the operands negates the result |
| `Collation.LocaleCompareTransitive` | src/lib/sortingUtils.ts:58 | the string order is transitive |
| `StableSort.Insert` | src/lib/sortingUtils.ts:25 | one insertion step of the reference sort adds one element; what it orders is stated by InsertSplits, InsertPermutes, InsertKeepsTies and InsertSorted |
| `StableSort.InsertionSort` | src/lib/sortingUtils.ts:25 | the reference `Array.prototype.sort` keeps the length; it is a permutation, sorted and stable by the lemmas below |
| `StableSort.InsertPermutes` | src/lib/sortingUtils.ts:25 | one insertion step adds exactly the inserted element |
| `StableSort.InsertionSortPermutes` | src/lib/sortingUtils.ts:25 | the sorted output is a permutation of the input |
| `StableSort.InsertionSortSorted` | src/lib/sortingUtils.ts:25 | with a consistent comparator every earlier element compares at most equal to every later one |
| `StableSort.InsertionSortStable` | src/lib/sortingUtils.ts:25 | stability: every group of elements the comparator ties keeps its input order |
| `StableSort.StableSortIsUnique` | src/lib/sortingUtils.ts:25 | a sorted, stable permutation of the input is the insertion sort's output, so any stable sort gives the same array |
| `StableSort.SameDecisionsSameSort` | src/app/page.tsx:260-312 | two comparators that agree on when one element is greater give the same sorted order |
| `StableSort.InsertInPlace` | src/app/page.tsx:259-260 | the array step shifts the greater elements of the sorted prefix right and leaves the prefix equal to `Insert` of the old prefix and element, the rest untouched |
| `StableSort.SortInPlace` | src/app/page.tsx:259-260 | the array is reordered in place into the insertion sort of its old contents |
| `SortingUtils.SortByUrgency` | src/lib/sortingUtils.ts:45-49 | negative iff a's urgency score is lower; zero iff both records have the same status |
| `SortingUtils.SortByStatus` | src/lib/sortingUtils.ts:54-60 | zero iff the same status; for asc negative iff a is less urgent; for desc negative iff a is more urgent |
| `SortingUtils.DueDateKey` | src/lib/sortingUtils.ts:66-74 | the key is at midnight; it is the record's due date, or the due date of a completion now for a record never completed |
| `SortingUtils.SortByDueDate` | src/lib/sortingUtils.ts:65-78 | zero iff the keys are equal; for asc negative iff a's key is earlier; for desc negative iff a's key is later |
| `SortingUtils.CompareRecords` | src/lib/sortingUtils.ts:25-39 | the comparator is `sortByUrgency` for urgency (direction ignored), `sortByStatus` for status and `sortByDueDate` for due date |
| `SortingUtils.CompareRecordsIsTotalPreorder` | src/lib/sortingUtils.ts:25-39 | each of the three comparators, in either direction, is a consistent comparator |
| `SortingUtils.SortVaccinationRecords` | src/lib/sortingUtils.ts:20-40 | returns a fresh array and leaves the input unchanged; the result is a permutation of the input, ordered by the comparator and stable |
| `SortingUtils.UrgencySortOrdersByScore` | src/lib/sortingUtils.ts:27-28 | sorting by urgency ignores the direction and leaves the scores non-decreasing |
| `SortingUtils.StatusSortOrdersByLabel` | src/lib/sortingUtils.ts:54-60 | sorting by status leaves the labels non-decreasing for asc and non-increasing for desc |
| `SortingUtils.DueDateSortOrdersByDate` | src/lib/sortingUtils.ts:65-78 | sorting by due date leaves the keys chronological for asc and reversed for desc |
| `SortingUtils.StatusAscMatchesUrgency` | src/lib/sortingUtils.ts:45-60 | status ascending gives exactly the urgency order |
| `SortingUtils.ExampleDueDateOrder` | src/lib/sortingUtils.ts:65-78 | a record never completed and one completed 15 August 2023: by due date ascending the completed one (due 15 August 2024) comes first whenever one year from now is later than that |
| `Page.InlineDueDate` | src/app/page.tsx:262-265 | the page's inline due date is `calculateDueDate(completedAt)`, or null when never completed |
| `Page.InlineIsOverdue` | src/app/page.tsx:266 | the inline overdue flag equals `getVaccinationStatus`'s `isOverdue` |
| `Page.InlineUrgency` | src/app/page.tsx:275-276 | the inline urgency equals `getUrgencyScore` for every record |
| `Page.InlineStatusLabel` | src/app/page.tsx:292-293 | the inline label is 'Complete' for a completed record and `getStatusText`'s label otherwise |
| `Page.InlineLabelOrderMatchesUrgency` | src/app/page.tsx:292-296 | with 'Complete', comparing labels still gives the sign of the urgency difference |
| `Page.InlineDueDateKey` | src/app/page.tsx:298-306 | the inline due-date key equals the library's key, the synthetic date included |
| `Page.InlineComparator` | src/app/page.tsx:260-312 | for urgency the inline comparator is the urgency difference and for due date the library's due-date comparator; for status it compares the inline labels, negated for desc |
| `Page.InlineComparatorAgrees` | src/app/page.tsx:260-312 | for every sort key, direction and pair of records the inline comparator has the sign of `sortVaccinationRecords`'s comparator |
| `Page.InlineSortMatchesLibrary` | src/app/page.tsx:259-312 | on the same input sequence, the page's sort gives exactly `sortVaccinationRecords`'s order |
| `Page.PageOrderDependsOnEarlierSorts` | src/app/page.tsx:259-312 | because the page sorts its state array in place, a status sort after a due-date sort keeps two tied records in due-date order, unlike the library on the fetched order |
| `Page.Row` | src/app/page.tsx:314-352 | the badge is `getVaccinationStatus`'s status; the dates match it; the action cell is filled iff due soon or overdue; it shows the date editor iff that and the record is the one being edited |
| `Page.NextSortState` | src/app/page.tsx:119-126 | after `handleSort(column)` the column is active; the direction is asc iff the column was not active or was desc |
| `Page.HandleSortTwiceRestores` | src/app/page.tsx:119-121 | clicking the active column twice restores the state |
| `Page.HandleSortNewColumnTwice` | src/app/page.tsx:122-125 | a new column starts asc, and a second click makes it desc |
| `Page.ClicksNeverReturnToUrgency` | src/app/page.tsx:50 | after any non-empty series of clicks the last clicked column is active, never urgency |
| `Page.Pet.constructor` | src/app/page.tsx:18-32 | stores the id, name and records array it is given |
| `Page.HomePage.constructor` | src/app/page.tsx:46-56 | the page starts sorted by urgency ascending, with no record being edited and the add form closed and empty |
| `Page.HomePage.HandleSort` | src/app/page.tsx:119-126 | the active column flips direction; another column becomes active ascending; nothing else changes |
| `Page.HomePage.MarkVaccinationComplete` | src/app/page.tsx:85-88 | the record is being edited and its date input holds today |
| `Page.HomePage.CancelEdit` | src/app/page.tsx:114-117 | no record is being edited and the date input is empty |
| `Page.HomePage.OpenAddModal` | src/app/page.tsx:128-132 | the add form is shown for the pet with today's date |
| `Page.HomePage.CloseAddModal` | src/app/page.tsx:134-139 | the add form is hidden and all of its fields are cleared |
| `Page.HomePage.SortPetRecords` | src/app/page.tsx:259-312 | `pet.records` is reordered in place, the same array, into the library's order |
| `Page.HomePage.Rows` | src/app/page.tsx:313-352 | one row per record, in the records' order, each as `Row` describes |

## Left out

- Time zones are not modelled: the model works on local calendar fields.
  This covers the UTC-versus-local reading of `new Date('YYYY-MM-DD')` and of
  the stored ISO strings, and daylight-saving days of other lengths.
- The source samples `new Date()` again inside each comparison and each row.
  The model uses one `now` for a whole evaluation, so a render that crosses
  midnight is not modelled.
- `DateUtils.CompareInstants`: keeps only the sign of `a.getTime() - b.getTime()`, not its value, because only the sign is used.
- JavaScript's `Date` range limit (±8.64e15 ms) and invalid dates are not modelled: years are unbounded integers. The two-digit-year rule of the constructor is modelled (`ConstructorYear`).
- `DateUtils.NormalizeDate`: handles days 1..31 only, not the `Date` constructor's full overflow and underflow, because the engine only passes the day of an existing date.
- `Collation.LocaleCompare`: code-point order, not locale collation. The only strings compared are the three or four status labels, whose first letters differ, so the two orders agree on them.
- `formatDateUK` (both copies): a call into the host's locale formatting.
- `getTodayISO` and the `toISOString().split('T')[0]` prefill: host date formatting. The methods that prefill take today's string as a parameter.
- `calculatePetAge` and the inline age expression: floating-point division by 365.25.
- The fetch calls: `fetchPets`, `fetchVaccinationTypes`, `handleDateSubmit` and `handleAddVaccination`. Their empty-input guards return before any request and change no state.
- The API routes, the database seeding and inspection scripts, and JSX rendering.
- `SortableHeader` and `StatusBadge` are not part of this model. `StatusBadge`'s text repeats `getStatusText`.
- The `loading`, `pets` and `vaccinationTypes` state fields are not modelled: only the fetches set them.
- JavaScript's behaviour with inconsistent comparators is not modelled. Every comparator here is proved consistent (`CompareRecordsIsTotalPreorder`), and the page's comparators agree with those (`InlineComparatorAgrees`).
