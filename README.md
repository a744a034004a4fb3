# focus-ops task engine in Dafny

This project models the logic of the focus-ops operations dashboard:

- **The `useTaskManager` hook.** It holds the task collection, six filter fields, a sort field and direction, the current page and the page size. From these it derives a filtered, then sorted, then paginated view and the per-status counts. It creates, updates and deletes tasks.
- **The page-number strip of `Pagination`.** This is the list of page buttons and `...` markers that `getPageNumbers` builds, plus the component's visibility rule and its previous/next buttons.
- **The form state of `TaskFormModal`.** This covers the prefill/defaults effect, `validate`, and the payload `handleSubmit` hands to `onSave`, including tag parsing.
- **The handlers of `OperationsDashboard`.** These cover the modal flags, the selected task and the toast list, and how save, delete, the status cards and the pager are routed to the store.
- **The types of `task.ts`.** These are the task record and its enumerations, the filter record, and the sort field and direction.

## Module layout

| file | module | what it holds |
|---|---|---|
| `types.dfy` | `TaskTypes` | `Priority`, `Status` and `Department` with their labels, plus the `Task`, `TaskData` (a task without `id` and `createdAt`), `TaskPatch` (`Partial<Task>`), `TaskFilters`, `FilterKey`, `SortField` and `SortDirection` types |
| `text.dfy` | `Text` | The string operations the code calls: `toLowerCase`, `includes`, `trim`, `split`/`join`, `String(n)`, `padStart` and ordinal string comparison |
| `seqs.dfy` | `Seqs` | `Keep`, which is `Array.prototype.filter`, with its algebra, and order-preserving subsequences |
| `view.dfy` | `View` | The derivation as pure functions: the six filter passes, the comparator, a stable sort, `slice`, the page count and the status counts, plus the sort toggle |
| `mutations.dfy` | `Mutations` | The id scheme and the create, update and delete operations as functions from the old collection to the new one |
| `store.dfy` | `Store` | The class `TaskStore`: the hook's six state fields, its derived views (functions that read the state) and its setters (methods) |
| `pagination.dfy` | `Pagination` | `GetPageNumbers`, a loop that pushes entries, proved equal to `PageWindow`, and the lemmas about the window and the buttons |
| `form.dfy` | `TaskForm` | The form record and tag parsing, and the class `TaskFormModal` with `Open`, `Validate` and `Submit` |
| `dashboard.dfy` | `Dashboard` | The class `OperationsDashboard`: the modal flags, the selection, the toasts, a `TaskStore`, and the handlers |

The filters are compared the way the code compares them. An enumeration filter is a string, and it matches a task when it equals the task's label (`"In Progress"`, `"Customer Service"`). A filter value that is no label therefore matches nothing. The two date bounds are inclusive comparisons of strings.

## Behaviour worth knowing

- **Sort direction.** Descending order is not the exact reverse of ascending order: tied tasks keep their filtered order in both directions, because `sort` is stable and the comparator only negates. `View.TiesKeepOrderBothWays` shows this on two tasks of equal priority.
- **Id uniqueness.** Ids are not unique across deletes. The id comes from the collection size, so create, delete and create again can issue an id that is still in use. `Mutations.IdReuseAfterDelete` proves this.
- **Page clamping.** Nothing clamps the current page. A delete can leave it past the last page, and `setCurrentPage` takes any number, with a negative one counting from the end as `slice` does. `View.PageSizes`, `View.NegativePageWraps` and `Pagination.NextFromStalePage` state these behaviours.

## Model

| member | source | states |
|---|---|---|
| TaskTypes.NamesAreDistinct | src/types/task.ts:5-11 | The source labels of priorities, statuses and departments are pairwise distinct, so each label names exactly one value |
| Text.Lower | src/hooks/useTaskManager.ts:27-32 | The length is kept, each character is ASCII lower-cased, and the result holds no upper-case letter |
| Text.LowerIdempotent | src/hooks/useTaskManager.ts:27-32 | Lower-casing twice is lower-casing once |
| Text.ContainsItself | src/hooks/useTaskManager.ts:29-32 | Every string includes itself |
| Text.NothingContainsLonger | src/hooks/useTaskManager.ts:29-32 | No string includes a longer one |
| Text.Contains | src/hooks/useTaskManager.ts:29-32 | A string includes each of its prefixes |
| Text.Trim | src/components/operations/TaskFormModal.tsx:82-83 | The result has no whitespace at either end; it is empty exactly when the input is all whitespace; it adds no character |
| Text.TrimIsSlice | src/components/operations/TaskFormModal.tsx:94-98 | The trimmed string is a contiguous piece of the input, and all that was cut off on both sides is whitespace |
| Text.TrimOfTrimmed | src/components/operations/TaskFormModal.tsx:94-98 | A string already trimmed is left as it is |
| Text.TrimIdempotent | src/components/operations/TaskFormModal.tsx:94-98 | Trimming twice is trimming once |
| Text.TrimLeadingSpace | src/components/operations/TaskFormModal.tsx:61 | A leading space does not change the trimmed form |
| Text.BlankIsEmptyTrim | src/components/operations/TaskFormModal.tsx:82-83 | `!s.trim()` holds exactly when the string is all whitespace |
| Text.Split | src/components/operations/TaskFormModal.tsx:101 | `split` always gives at least one piece, and no piece holds the separator |
| Text.JoinSplit | src/components/operations/TaskFormModal.tsx:61 | Joining the pieces of a split with the same separator gives the string back |
| Text.SplitJoin | src/components/operations/TaskFormModal.tsx:61 | Splitting a join of separator-free pieces gives the pieces back |
| Text.SplitNoSeparator | src/components/operations/TaskFormModal.tsx:101 | A string without the separator splits into itself alone |
| Text.SplitAfterSeparator | src/components/operations/TaskFormModal.tsx:101 | A separator-free prefix followed by the separator becomes the first piece |
| Text.Join | src/components/operations/TaskFormModal.tsx:61 | Joining no parts gives `''`, one part gives that part, and the first part always starts the result |
| Text.NatToDecimal | src/hooks/useTaskManager.ts:117 | `String(n)` is a non-empty digit string with a leading zero only for 0 |
| Text.DecimalRoundTrip | src/hooks/useTaskManager.ts:117 | Reading the decimal rendering of `n` gives `n` back |
| Text.DecimalLeadingZero | src/hooks/useTaskManager.ts:117 | A leading zero does not change a digit string's value |
| Text.DecimalLength | src/hooks/useTaskManager.ts:117 | A number below `10^k` renders in at most `k` digits |
| Text.PadStart | src/hooks/useTaskManager.ts:117 | The result has the width, or the input's length if that is larger; the input is its suffix; the rest is the fill character |
| Text.DecimalZeros | src/hooks/useTaskManager.ts:117 | Zeros in front of a digit string keep it all digits and keep its value |
| Text.PaddedDecimalValue | src/hooks/useTaskManager.ts:117 | The zero-padded rendering is all digits and reads back as `n` |
| Text.Compare | src/hooks/useTaskManager.ts:64 | The result is 0, negative or positive exactly when the strings are equal, the first is less, or the second is less |
| Text.StrLess | src/hooks/useTaskManager.ts:53-56 | A string is never less than itself, and a proper prefix is less than the longer string |
| Text.StrLessTrichotomy | src/hooks/useTaskManager.ts:53-56 | Equal strings are not less either way, and of two different strings exactly one is less |
| Text.StrLessTransitive | src/hooks/useTaskManager.ts:64 | String order is transitive |
| Text.NotLessIsAtLeast | src/hooks/useTaskManager.ts:53-56 | `a >= b` on strings is `a == b` or `b < a` |
| Seqs.Keep | src/hooks/useTaskManager.ts:28-56 | `filter` yields only elements of the input that pass, and every element that passes; it is no longer than the input and is a sub-multiset of it |
| Seqs.KeepSubsequence | src/hooks/useTaskManager.ts:28-56 | `filter` keeps the input order |
| Seqs.KeepKeep | src/hooks/useTaskManager.ts:37-57 | Two filters in a row are one filter by the conjunction |
| Seqs.KeepAppend | src/hooks/useTaskManager.ts:134 | Filtering a concatenation filters each part |
| Seqs.KeepSplitsLength | src/hooks/useTaskManager.ts:134 | What a predicate keeps and what its negation keeps add up to the whole list |
| Seqs.KeepMonotone | src/hooks/useTaskManager.ts:36-57 | A stronger predicate keeps a subsequence of what a weaker one keeps |
| View.WithFilter | src/hooks/useTaskManager.ts:90-91 | `{ ...prev, [key]: value }` sets that field to the value and leaves the other five unchanged |
| View.EmptyFiltersAreEmpty | src/hooks/useTaskManager.ts:9-16 | All six fields of the initial and cleared filters are `''` |
| View.SearchHit | src/hooks/useTaskManager.ts:26-34 | An empty needle hits every task (the `includes('')` case); its meaning within the filters is stated by `View.FilterIsConjunction` |
| View.Pass | src/hooks/useTaskManager.ts:36-57 | One conditional `filter` pass yields no more tasks than it is given, each taken from them |
| View.FilterTasks | src/hooks/useTaskManager.ts:22-57 | The passes yield no more tasks than the collection, each taken from it; `View.FilterIsConjunction` fixes which |
| View.FilterIsConjunction | src/hooks/useTaskManager.ts:22-57 | The six passes applied in order equal one filter by `Matches`: every non-empty field is a constraint, and all are ANDed |
| View.FilterMembership | src/hooks/useTaskManager.ts:22-57 | The filtered list is an order-preserving subsequence of the tasks; everything in it matches, and every task that matches is in it |
| View.EmptyFiltersKeepAll | src/hooks/useTaskManager.ts:26-57 | With all fields empty, the filter passes return the collection unchanged |
| View.NarrowsMatches | src/hooks/useTaskManager.ts:26-57 | When every field of `f` is either empty or equal in `g`, a task matching `g` also matches `f` |
| View.FilterNarrowing | src/hooks/useTaskManager.ts:26-57 | A narrower filter set yields a subsequence of the wider one's result, and no more tasks |
| View.SearchIgnoresCase | src/hooks/useTaskManager.ts:26-34 | Two search strings equal after lower-casing filter identically |
| View.PriorityRank | src/hooks/useTaskManager.ts:5 | Each priority ranks between 1 and 4 |
| View.PriorityRankIsOrder | src/hooks/useTaskManager.ts:5 | Low < Medium < High < Critical, and the ranks are distinct |
| View.Comparison | src/hooks/useTaskManager.ts:62-67 | No sort field compares equal; by due date the sign follows string order and 0 means equal dates; by priority the sign follows the rank and 0 means equal priorities |
| View.Cmp | src/hooks/useTaskManager.ts:61-69 | `asc` keeps the comparison, `desc` flips its sign, and both are 0 exactly on ties |
| View.SameKeyMeaning | src/hooks/useTaskManager.ts:61-69 | The comparator finds two tasks equal exactly when their due dates (or priorities) are equal, and always when no field is chosen |
| View.CmpAntisymmetric | src/hooks/useTaskManager.ts:61-69 | The comparator is 0 exactly on ties, and it changes sign when its arguments swap |
| View.CmpTransitive | src/hooks/useTaskManager.ts:61-69 | "Not after" under the comparator is transitive, for both fields and both directions |
| View.SameKeyTransitive | src/hooks/useTaskManager.ts:61-69 | Ties are transitive and symmetric |
| View.DescReversesPairs | src/hooks/useTaskManager.ts:68 | `desc` orders a pair exactly when `asc` orders it the other way round |
| View.SortedMeaning | src/hooks/useTaskManager.ts:60-70 | In a sorted list, ranks never decrease (`asc`) or never increase (`desc`) along the list, and due dates likewise |
| View.Insert | src/hooks/useTaskManager.ts:61 | Inserting adds exactly that element to the multiset |
| View.InsertSorted | src/hooks/useTaskManager.ts:61 | Inserting into a sorted list keeps it sorted |
| View.StableSort | src/hooks/useTaskManager.ts:60-70 | The result is sorted by the comparator and is a permutation of the input |
| View.InsertKeepsTies | src/hooks/useTaskManager.ts:61 | Insertion puts the element before its ties, so among tasks tied with any `y` the order is as in the input |
| View.TiesAreInOrder | src/hooks/useTaskManager.ts:61-69 | Two tasks tied with a third are in order with each other |
| View.StableSortKeepsTies | src/hooks/useTaskManager.ts:60-70 | Stability: the tasks tied with any `y` appear in the sorted list in their filtered order |
| View.TiesKeepOrderBothWays | src/hooks/useTaskManager.ts:60-70 | Two tasks of equal priority come out in input order both ascending and descending |
| View.SortTasks | src/hooks/useTaskManager.ts:60-70 | With no sort field the list is unchanged; otherwise it is sorted and a permutation |
| View.VisibleTasks | src/hooks/useTaskManager.ts:22-73 | `filteredTasks` is sorted by the current field and direction, is a permutation of the filtered tasks, and is the filtered tasks themselves with no sort |
| View.VisibleMembership | src/hooks/useTaskManager.ts:22-73 | A task is in `filteredTasks` exactly when it is in the collection and matches the filters |
| View.RelativeIndex | src/hooks/useTaskManager.ts:77 | `slice` resolves a negative index from the end and clamps every index to `[0, length]` |
| View.Slice | src/hooks/useTaskManager.ts:77 | `slice` returns no more than the list, only its elements, and for in-range bounds exactly the sub-list |
| View.SliceBounds | src/hooks/useTaskManager.ts:77 | A slice is no longer than its index range; with non-negative bounds it is the clipped sub-list; with end 0 it is empty |
| View.SliceFrom | src/hooks/useTaskManager.ts:77 | `slice(start, start + size)` has at most `size` elements and, for `start >= 0`, is the clipped sub-list |
| View.PageStart | src/hooks/useTaskManager.ts:76 | Arithmetic helper: the page's start offset is non-negative from page 1 on, and is `-size` for page 0 |
| View.PageSlice | src/hooks/useTaskManager.ts:75-78 | The page has at most `size` tasks; for pages from 1 on it is `filtered[(p-1)*s .. (p-1)*s+s]` clipped to the length; page 0 is empty |
| View.TotalPages | src/hooks/useTaskManager.ts:80 | `ceil(n / size)`: it is 0 exactly when `n` is 0, its pages hold all `n` tasks, and one page fewer would not |
| View.PagesUpToPrefix | src/hooks/useTaskManager.ts:75-80 | Pages 1 to `k` concatenated are the first `k * size` tasks |
| View.NextPage | src/hooks/useTaskManager.ts:75-78 | Helper for `View.PagesUpToPrefix`: page `k` continues the prefix covered by the pages before it |
| View.PagesPartition | src/hooks/useTaskManager.ts:75-80 | Pages 1 to `totalPages` concatenated are exactly the filtered list |
| View.PageSizes | src/hooks/useTaskManager.ts:75-80 | Pages past the last are empty, pages 1 to the last are not, and all but the last are full |
| View.MulMonotone | src/hooks/useTaskManager.ts:76 | Arithmetic helper: multiplying by a non-negative number keeps order |
| View.NegativePageWraps | src/hooks/useTaskManager.ts:75-78 | Page -1 of 25 tasks at size 10 reads tasks 6 to 15, as `slice` does with a negative start |
| View.StatusesPartition | src/hooks/useTaskManager.ts:84-87 | The four status filters split the collection: their lengths add up to its length |
| View.ExactlyOneStatus | src/types/task.ts:6 | Every task passes exactly one of the four status filters |
| View.StatusLabelMatches | src/hooks/useTaskManager.ts:84-87 | A task passes the filter by a status's label exactly when it has that status |
| View.StatusFilterCount | src/hooks/useTaskManager.ts:84-87 | Filtering by a status's label keeps as many tasks as have that status |
| View.LabelCounts | src/hooks/useTaskManager.ts:84-87 | The four literal labels `"Backlog"`, `"In Progress"`, `"Blocked"` and `"Done"` count the four statuses |
| View.CountByStatus | src/hooks/useTaskManager.ts:82-88 | `total` is the size of the whole collection; each status count is the number of tasks with that status, counted one by one; the four add up to the total |
| View.Toggled | src/hooks/useTaskManager.ts:107-114 | The requested field becomes active; the direction flips when it was already active and is `asc` otherwise |
| View.ToggleCycle | src/hooks/useTaskManager.ts:107-114 | After two toggles of a field it is active; toggling the already active field twice restores the state; toggling a real field never leaves "no sort" |
| Mutations.TaskId | src/hooks/useTaskManager.ts:117 | The id starts with `OPS-` and is ten characters long while the number fits six digits |
| Mutations.SixDigits | src/hooks/useTaskManager.ts:117 | A number below a million renders in at most six digits |
| Mutations.TaskIdDigits | src/hooks/useTaskManager.ts:117 | After `OPS-` the id is all digits and they read as the collection size plus 133 |
| Mutations.TaskIdInjective | src/hooks/useTaskManager.ts:117 | Two collection sizes give the same id exactly when they are equal |
| Mutations.NewTask | src/hooks/useTaskManager.ts:118-122 | The new task carries the given id and date and exactly the form data |
| Mutations.Created | src/hooks/useTaskManager.ts:116-125 | Exactly one task is prepended, with id `OPS-` plus the zero-padded size plus 133, the date passed in, and the given data; the old tasks follow unchanged |
| Mutations.ApplyPatch | src/hooks/useTaskManager.ts:129 | `{ ...task, ...taskData }` field by field: each of the eleven fields the patch carries replaces the task's, and each it lacks keeps the task's |
| Mutations.PatchOf | src/components/operations/OperationsDashboard.tsx:86 | The dashboard's patch carries every form field and neither an id nor a creation date |
| Mutations.PatchOfData | src/components/operations/OperationsDashboard.tsx:86 | Saving the form's data over a task keeps its id and creation date and replaces exactly the form's fields |
| Mutations.Updated | src/hooks/useTaskManager.ts:127-131 | The length and order are kept; tasks with the id get the patch; all other tasks are unchanged |
| Mutations.UpdateUnknownId | src/hooks/useTaskManager.ts:127-131 | Updating an id no task carries changes nothing |
| Mutations.UpdateKeepsIdentity | src/hooks/useTaskManager.ts:127-131 | A patch without id and date keeps every task's id and creation date |
| Mutations.Deleted | src/hooks/useTaskManager.ts:133-135 | No task with the id survives; the rest is an order-preserving subsequence; exactly as many tasks go as carried the id |
| Mutations.DeleteKeepsOthers | src/hooks/useTaskManager.ts:133-135 | Every task with another id survives |
| Mutations.DeleteUnknownId | src/hooks/useTaskManager.ts:133-135 | Deleting an id no task carries changes nothing |
| Mutations.DeleteUniqueId | src/hooks/useTaskManager.ts:133-135 | Deleting an id carried by one task shrinks the collection by one |
| Mutations.IdReuseAfterDelete | src/hooks/useTaskManager.ts:117 | Create, delete an older task, then create again: the newest id is already in use by the task created first |
| Mutations.CreatedComesFirst | src/hooks/useTaskManager.ts:123 | With no filter and no sort, the new task heads the first page |
| Mutations.DeletedIdNotShown | src/hooks/useTaskManager.ts:134 | After a delete, no page of any filter and sort shows a task with that id |
| Mutations.PageIsSlice | src/hooks/useTaskManager.ts:75-78 | Every task on a page is in the list it pages |
| Mutations.CreateCounts | src/hooks/useTaskManager.ts:82-88 | A create adds one to the total and to the new task's status, and leaves the other statuses alone |
| Mutations.CreateCountsStatus | src/hooks/useTaskManager.ts:84-87 | One status count after a create: one more exactly when the new task has that status |
| Store.TaskStore.constructor | src/hooks/useTaskManager.ts:8-20 | The initial state: the seed tasks, empty filters, no sort, `asc`, page 1, page size 10 |
| Store.TaskStore.FilteredTasks | src/hooks/useTaskManager.ts:22-73 | Exactly the tasks that match the current filters, sorted by the current field and direction, as a permutation of the filtered list; with no sort, a subsequence of the collection |
| Store.TaskStore.PaginatedTasks | src/hooks/useTaskManager.ts:75-78 | At most a page of matching tasks; empty past the last page, and not empty on a page that exists |
| Store.TaskStore.PageCount | src/hooks/useTaskManager.ts:80 | Zero exactly when nothing matches, and enough pages for every match |
| Store.TaskStore.Counts | src/hooks/useTaskManager.ts:82-88 | The counts cover the whole collection, not the filtered list, and each status count is the number of tasks with that status |
| Store.TaskStore.UpdateFilter | src/hooks/useTaskManager.ts:90-93 | Only that filter field changes, the page becomes 1, and the tasks, sort and page size are untouched |
| Store.TaskStore.ClearFilters | src/hooks/useTaskManager.ts:95-105 | All filters are `''`, the page is 1, the derived list is the sorted collection, and nothing else changes |
| Store.TaskStore.ToggleSort | src/hooks/useTaskManager.ts:107-114 | The sort state moves as `Toggled` says, and nothing else changes |
| Store.TaskStore.SetCurrentPage | src/hooks/useTaskManager.ts:19 | The page is set to any number given, and nothing else changes |
| Store.TaskStore.SetPageSize | src/hooks/useTaskManager.ts:20 | The size is set, and the page and every other field are left alone |
| Store.TaskStore.CreateTask | src/hooks/useTaskManager.ts:116-125 | The collection becomes `Created(old, data, today)`, the returned task is its head, and the rest of the state is untouched |
| Store.TaskStore.UpdateTask | src/hooks/useTaskManager.ts:127-131 | The collection becomes `Updated(old, id, patch)`, tasks with other ids are unchanged, and nothing else changes |
| Store.TaskStore.DeleteTask | src/hooks/useTaskManager.ts:133-135 | The collection becomes `Deleted(old, id)`: no task with the id is left, every other survives, and the page is not moved |
| Pagination.Range | src/components/operations/Pagination.tsx:18 | `for (i = lo; i <= hi; i++) push(i)` yields `hi - lo + 1` entries, each the number `lo` plus its index, or none when `hi < lo` |
| Pagination.PageWindow | src/components/operations/Pagination.tsx:13-37 | At most 7 entries; with any pages the list starts with page 1 and ends with the last page; with none it is empty |
| Pagination.PushRange | src/components/operations/Pagination.tsx:18 | The loop appends exactly `Range(lo, hi)` |
| Pagination.GetPageNumbers | src/components/operations/Pagination.tsx:13-37 | The loops and pushes of all three branches build exactly `PageWindow` |
| Pagination.SmallWindow | src/components/operations/Pagination.tsx:17-18 | With at most 5 pages the list is exactly `1..totalPages`, and empty for 0 pages |
| Pagination.EllipsisCountAppend | src/components/operations/Pagination.tsx:14-34 | The markers of a concatenation are those of both parts |
| Pagination.RangeHasNoEllipsis | src/components/operations/Pagination.tsx:18 | A run of page numbers has no marker |
| Pagination.MarkerPairs | src/components/operations/Pagination.tsx:22-26 | Counting helper: the two fixed fragments around a marker each hold one |
| Pagination.LargeWindow | src/components/operations/Pagination.tsx:19-35 | Above 5 pages the list starts at 1 and ends at `totalPages`; the edge branches have 6 entries and one marker, the middle branch 7 and two |
| Pagination.WindowOrdered | src/components/operations/Pagination.tsx:17-35 | For any current page, the numbers strictly increase and lie in `[1, totalPages]` |
| Pagination.WindowHasCurrent | src/components/operations/Pagination.tsx:17-35 | A current page in `[1, totalPages]` has its own button |
| Pagination.EllipsisPlacement | src/components/operations/Pagination.tsx:17-35 | A marker is never first or last and is never next to another marker |
| Pagination.HiddenForShortLists | src/components/operations/Pagination.tsx:39 | Fed the store's page count, the component hides exactly when the list fits one page and holds at most 10 items |
| Pagination.IsHidden | src/components/operations/Pagination.tsx:39 | No contract of its own; `Pagination.HiddenForShortLists` states what it means for the store's page count |
| Pagination.PrevDisabled | src/components/operations/Pagination.tsx:58-61 | No contract of its own; `Pagination.NavigationInRange` states what it means |
| Pagination.PrevTarget | src/components/operations/Pagination.tsx:58-61 | No contract of its own; `Pagination.NavigationInRange` states what it means |
| Pagination.NextDisabled | src/components/operations/Pagination.tsx:86-89 | No contract of its own; `Pagination.NavigationInRange` and `Pagination.NextFromStalePage` state what it means |
| Pagination.NextTarget | src/components/operations/Pagination.tsx:86-89 | No contract of its own; `Pagination.NavigationInRange` and `Pagination.NextFromStalePage` state what it means |
| Pagination.NavigationInRange | src/components/operations/Pagination.tsx:58-89 | From an existing page, Prev is enabled exactly above page 1 and Next below the last page, and each leads one page over to a page that exists |
| Pagination.NextFromStalePage | src/components/operations/Pagination.tsx:86-89 | From a page past the last, Next stays enabled and leads further out |
| TaskForm.Prefill | src/components/operations/TaskFormModal.tsx:51-78 | Without a task the form has empty texts, Medium, Backlog, Warehouse and 0 attachments; with one, every field is copied from the task and its tags are joined by `", "` |
| TaskForm.ValidationErrors | src/components/operations/TaskFormModal.tsx:80-87 | There is an error key for the title (assignee) exactly when it trims to empty, and for the due date exactly when it is empty |
| TaskForm.TrimAll | src/components/operations/TaskFormModal.tsx:101 | `map(t => t.trim())` keeps the length and trims each piece in place |
| TaskForm.ParseTags | src/components/operations/TaskFormModal.tsx:101 | Every tag is non-empty, trimmed and comma-free, and the tags are exactly the trimmed forms of the pieces that are not blank, in order and with duplicates kept |
| TaskForm.TrimThenDrop | src/components/operations/TaskFormModal.tsx:101 | Trimming every piece and then dropping the empty ones is the same as keeping the non-blank pieces and trimming them |
| TaskForm.ParseTagsPieces | src/components/operations/TaskFormModal.tsx:101 | The tags are a subsequence of the trimmed pieces; every non-blank piece gives its trimmed form; there are exactly as many tags as non-blank pieces |
| TaskForm.TrimKeepsOut | src/components/operations/TaskFormModal.tsx:101 | Trimming the pieces introduces no comma |
| TaskForm.TrimAllAppend | src/components/operations/TaskFormModal.tsx:101 | Trimming pieces works part by part |
| TaskForm.LeadingSpaceIgnored | src/components/operations/TaskFormModal.tsx:61-101 | The space that `", "` leaves before a piece disappears after trimming |
| TaskForm.SplitJoined | src/components/operations/TaskFormModal.tsx:61-101 | Splitting `tags.join(', ')` on commas and trimming gives the clean tags back |
| TaskForm.TagsRoundTrip | src/components/operations/TaskFormModal.tsx:61-101 | When the tags are non-empty, trimmed and comma-free, parsing `tags.join(', ')` gives exactly the tags back, the empty list included |
| TaskForm.Payload | src/components/operations/TaskFormModal.tsx:93-103 | Title, description and assignee are the trimmed form values; the tags are `ParseTags` of the tag text, and clean; priority, status, department, due date and attachments pass through |
| TaskForm.ValidPayload | src/components/operations/TaskFormModal.tsx:80-103 | A form that validates saves a non-empty title, assignee and due date |
| TaskForm.EditWithoutChanges | src/components/operations/TaskFormModal.tsx:51-103 | Opening a clean task and saving it untouched hands back exactly its data |
| TaskForm.TaskFormModal.constructor | src/components/operations/TaskFormModal.tsx:38-49 | The initial form is the defaults with no errors |
| TaskForm.TaskFormModal.Open | src/components/operations/TaskFormModal.tsx:51-78 | The effect loads `Prefill(task)` and clears the errors |
| TaskForm.TaskFormModal.Validate | src/components/operations/TaskFormModal.tsx:80-87 | The error set becomes `ValidationErrors(form)`, the form is untouched, and the result is true exactly when the title and assignee are not blank and the due date is set |
| TaskForm.TaskFormModal.Submit | src/components/operations/TaskFormModal.tsx:89-104 | The errors are refreshed; a payload is handed on exactly when there are none, and it is `Payload(form)` |
| Dashboard.WithoutToast | src/components/operations/OperationsDashboard.tsx:55-57 | No toast with the id is left, every other toast stays, the order is kept, and exactly as many toasts go as carried the id |
| Dashboard.AddThenRemove | src/components/operations/OperationsDashboard.tsx:50-57 | Removing a toast just appended under a fresh id restores the list |
| Dashboard.SharedIdRemovesBoth | src/components/operations/OperationsDashboard.tsx:50-57 | Two toasts raised under the same clock id are dismissed together |
| Dashboard.CardFilter | src/components/operations/OperationsDashboard.tsx:105-107 | The new status filter is `''` or the card's key, and it is the key exactly when the filter was something else (or the key is `''`) |
| Dashboard.CardClicks | src/components/operations/SummaryCards.tsx:17 | The Total card (key `''`) always clears the status filter; clicking any card twice from no filter leaves no filter; clicking a real card that is not active selects it |
| Dashboard.OperationsDashboard.constructor | src/components/operations/OperationsDashboard.tsx:15-40 | No modal open, nothing selected, no toasts, and a fresh store in its initial state |
| Dashboard.OperationsDashboard.AddToast | src/components/operations/OperationsDashboard.tsx:50-53 | Exactly one toast is appended at the end with the given id, kind and message |
| Dashboard.OperationsDashboard.RemoveToast | src/components/operations/OperationsDashboard.tsx:55-57 | The toast list becomes `WithoutToast(old, id)` |
| Dashboard.OperationsDashboard.HandleNewTask | src/components/operations/OperationsDashboard.tsx:59-62 | The selection clears and the form opens |
| Dashboard.OperationsDashboard.HandleView | src/components/operations/OperationsDashboard.tsx:64-67 | The task is selected and the view modal opens |
| Dashboard.OperationsDashboard.HandleEdit | src/components/operations/OperationsDashboard.tsx:69-72 | The task is selected and the form opens |
| Dashboard.OperationsDashboard.HandleEditFromView | src/components/operations/OperationsDashboard.tsx:74-77 | The view modal closes, the form opens, and the selection is kept |
| Dashboard.OperationsDashboard.HandleDelete | src/components/operations/OperationsDashboard.tsx:79-82 | The task is selected and the delete modal opens |
| Dashboard.OperationsDashboard.HandleSaveTask | src/components/operations/OperationsDashboard.tsx:84-94 | With a selection the selected id is updated with the form data; without one a task is created; the matching success toast is added; the form closes and the selection clears |
| Dashboard.OperationsDashboard.HandleConfirmDelete | src/components/operations/OperationsDashboard.tsx:96-103 | The selected id is deleted with a success toast only if a task is selected; the modal closes and the selection clears either way |
| Dashboard.OperationsDashboard.HandleStatusCardClick | src/components/operations/OperationsDashboard.tsx:105-107 | The status filter becomes `CardFilter(old status, key)` and the page becomes 1 |
| Dashboard.OperationsDashboard.HandleSearchChange | src/components/operations/OperationsDashboard.tsx:113 | The search filter is set and the page becomes 1 |
| Dashboard.OperationsDashboard.HandlePageChange | src/components/operations/OperationsDashboard.tsx:149 | The store's page is set to the requested page |
| Dashboard.OperationsDashboard.HandlePageSizeChange | src/components/operations/OperationsDashboard.tsx:150-153 | The size is set and then the page becomes 1 |
| Dashboard.OperationsDashboard.CloseForm | src/components/operations/OperationsDashboard.tsx:162-165 | The form flag and the selection clear |
| Dashboard.OperationsDashboard.CloseView | src/components/operations/OperationsDashboard.tsx:172-175 | The view flag and the selection clear |
| Dashboard.OperationsDashboard.CloseDelete | src/components/operations/OperationsDashboard.tsx:182-185 | The delete flag and the selection clear |

## Left out

- **The seed collection.** `initialTasks` comes from `src/data/dummyTasks`, which is not part of this model. The store's constructor takes the initial collection as a parameter.
- **The clock.** `new Date().toISOString().split('T')[0]` in `createTask` becomes the `today` parameter. `Date.now().toString()` in `addToast` becomes the `id` parameter.
- **Text.Lower: ASCII only.** `toLowerCase` is modelled as ASCII case folding. Full Unicode case mapping is not modelled.
- **Text.Compare: ordinal order.** `localeCompare` on due dates, and `>=`/`<=` on strings, are modelled as ordinal comparison of characters. This agrees with the code for fixed-width `YYYY-MM-DD` dates. Locale collation, and the UTF-16 order of characters outside the Basic Multilingual Plane, are not modelled.
- **Text.Trim: whitespace set.** `trim` strips the fixed ECMAScript set of whitespace and line terminators that `IsWhitespace` lists.
- **The page size must be positive.** `PageSlice`, `TotalPages` and `SetPageSize` require a positive size. The page-size select offers only 10, 20 and 50; the division by zero that a size of 0 would cause is not modelled.
- **React machinery.** `useState`, `useMemo`, `useCallback`, re-rendering and stale closures are not modelled. The derivations are functions of the current state, and the setters are sequential field updates. `toggleSort` reads the current sort field rather than a captured one.
- **Per-field `onChange` setters of the form.** Each spreads a single typed value into the form record; they are not modelled separately. The form's `isOpen` guard is presentation and is also left out.
- **Error messages.** The validation messages and all labels are localized UI strings. The error map is modelled as the set of fields in error.
- **Enumeration values on update.** A patch is typed, so `updateTask` cannot store a priority, status or department outside its enumeration. The source does not check this at run time either.
- **The dark-mode effect, toast timers and presentation.** The dark-mode effect touches the document. Toast exit animations run on timers. The table, view and delete dialogs, top bar, filter bar and summary cards are markup. Only the Total card's key `''` is used, in `Dashboard.CardClicks`.
- **Toast rendering and automatic dismissal** are left out; only the toast list and its add/remove operations are modelled.
