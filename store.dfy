/** The `useTaskManager` hook as an object: six pieces of state that the
    setters overwrite one after another, and read-only views derived from
    them by the functions of `View`. */
module Store {
  import opened TaskTypes
  import opened Seqs
  import opened View
  import opened Mutations

  class TaskStore {
    var tasks: seq<Task>
    var filters: TaskFilters
    var sortField: SortField
    var sortDirection: SortDirection
    var currentPage: int
    var pageSize: int

    /** The page size the slice and the page count divide by is positive. */
    predicate Valid()
      reads this
    {
      pageSize > 0
    }

    /** The hook's initial state over a given seed collection. */
    constructor(initialTasks: seq<Task>)
      ensures Valid()
      ensures tasks == initialTasks && filters == EmptyFilters
      ensures sortField == NoSort && sortDirection == Asc
      ensures currentPage == 1 && pageSize == 10
    {
      tasks := initialTasks;
      filters := EmptyFilters;
      sortField := NoSort;
      sortDirection := Asc;
      currentPage := 1;
      pageSize := 10;
    }

    /** `filteredTasks`: the tasks that pass every filter, in sort order. */
    function FilteredTasks(): (r: seq<Task>)
      reads this
      ensures forall t :: t in r <==> t in tasks && Matches(t, filters)
      ensures Sorted(r, sortField, sortDirection)
      ensures multiset(r) == multiset(FilterTasks(tasks, filters))
      ensures sortField == NoSort ==> IsSubsequence(r, tasks)
    {
      VisibleMembership(tasks, filters, sortField, sortDirection);
      FilterMembership(tasks, filters);
      VisibleTasks(tasks, filters, sortField, sortDirection)
    }

    /** `tasks` as the hook returns it: the current page of the list. */
    function PaginatedTasks(): (r: seq<Task>)
      requires Valid()
      reads this
      ensures |r| <= pageSize
      ensures forall t :: t in r ==> t in tasks && Matches(t, filters)
      ensures currentPage > TotalPages(|FilteredTasks()|, pageSize) ==> r == []
      ensures 1 <= currentPage <= TotalPages(|FilteredTasks()|, pageSize) ==> r != []
    {
      var all := FilteredTasks();
      PageIsSlice(all, currentPage, pageSize);
      PageSizes(all, currentPage, pageSize);
      PageSlice(all, currentPage, pageSize)
    }

    /** `totalPages`. */
    function PageCount(): (r: nat)
      requires Valid()
      reads this
      ensures r == 0 <==> FilteredTasks() == []
      ensures |FilteredTasks()| <= r * pageSize
    {
      TotalPages(|FilteredTasks()|, pageSize)
    }

    /** `statusCounts`, over the whole collection and not the filtered list. */
    function Counts(): (c: StatusCounts)
      reads this
      ensures c.total == |tasks|
      ensures c.backlog == NumWithStatus(tasks, Backlog) && c.inProgress == NumWithStatus(tasks, InProgress)
      ensures c.blocked == NumWithStatus(tasks, Blocked) && c.done == NumWithStatus(tasks, Done)
      ensures c.backlog + c.inProgress + c.blocked + c.done == |tasks|
    {
      CountByStatus(tasks)
    }

    /** `updateFilter(key, value)`: that one filter is set and the page goes
        back to the first. */
    method UpdateFilter(key: FilterKey, value: string)
      modifies this
      ensures filters == WithFilter(old(filters), key, value)
      ensures FilterField(filters, key) == value
      ensures forall k :: k != key ==> FilterField(filters, k) == FilterField(old(filters), k)
      ensures currentPage == 1
      ensures tasks == old(tasks) && sortField == old(sortField)
      ensures sortDirection == old(sortDirection) && pageSize == old(pageSize)
    {
      filters := WithFilter(filters, key, value);
      currentPage := 1;
    }

    /** `clearFilters`. */
    method ClearFilters()
      modifies this
      ensures filters == EmptyFilters && currentPage == 1
      ensures FilteredTasks() == SortTasks(tasks, sortField, sortDirection)
      ensures tasks == old(tasks) && sortField == old(sortField)
      ensures sortDirection == old(sortDirection) && pageSize == old(pageSize)
    {
      filters := EmptyFilters;
      currentPage := 1;
      EmptyFiltersKeepAll(tasks);
    }

    /** `toggleSort(field)`. */
    method ToggleSort(field: SortField)
      modifies this
      ensures SortState(sortField, sortDirection) == Toggled(old(SortState(sortField, sortDirection)), field)
      ensures sortField == field
      ensures field == old(sortField) ==> sortDirection != old(sortDirection)
      ensures field != old(sortField) ==> sortDirection == Asc
      ensures tasks == old(tasks) && filters == old(filters)
      ensures currentPage == old(currentPage) && pageSize == old(pageSize)
    {
      if sortField == field {
        sortDirection := if sortDirection == Asc then Desc else Asc;
      } else {
        sortField := field;
        sortDirection := Asc;
      }
    }

    /** `setCurrentPage`: any number is taken as it is. */
    method SetCurrentPage(page: int)
      modifies this
      ensures currentPage == page
      ensures tasks == old(tasks) && filters == old(filters) && sortField == old(sortField)
      ensures sortDirection == old(sortDirection) && pageSize == old(pageSize)
    {
      currentPage := page;
    }

    /** `setPageSize`: the page is left where it was. */
    method SetPageSize(size: int)
      requires size > 0
      modifies this
      ensures Valid() && pageSize == size
      ensures tasks == old(tasks) && filters == old(filters) && sortField == old(sortField)
      ensures sortDirection == old(sortDirection) && currentPage == old(currentPage)
    {
      pageSize := size;
    }

    /** `createTask(data)` with today's date passed in: the new task goes in
        front and is returned. */
    method CreateTask(data: TaskData, today: string) returns (t: Task)
      modifies this
      ensures tasks == Created(old(tasks), data, today)
      ensures t == tasks[0] && tasks[1..] == old(tasks)
      ensures t.id == TaskId(|old(tasks)|) && t.createdAt == today && DataOf(t) == data
      ensures filters == old(filters) && sortField == old(sortField) && sortDirection == old(sortDirection)
      ensures currentPage == old(currentPage) && pageSize == old(pageSize)
    {
      var after := Created(tasks, data, today);
      t := after[0];
      tasks := after;
    }

    /** `updateTask(id, patch)`. */
    method UpdateTask(id: string, patch: TaskPatch)
      modifies this
      ensures tasks == Updated(old(tasks), id, patch)
      ensures |tasks| == |old(tasks)|
      ensures forall i :: 0 <= i < |tasks| && old(tasks)[i].id != id ==> tasks[i] == old(tasks)[i]
      ensures filters == old(filters) && sortField == old(sortField) && sortDirection == old(sortDirection)
      ensures currentPage == old(currentPage) && pageSize == old(pageSize)
    {
      tasks := Updated(tasks, id, patch);
    }

    /** `deleteTask(id)`: the page is not moved, so it may now lie past the
        last one. */
    method DeleteTask(id: string)
      modifies this
      ensures tasks == Deleted(old(tasks), id)
      ensures forall t :: t in tasks ==> t.id != id
      ensures forall t :: t in old(tasks) && t.id != id ==> t in tasks
      ensures filters == old(filters) && sortField == old(sortField) && sortDirection == old(sortDirection)
      ensures currentPage == old(currentPage) && pageSize == old(pageSize)
    {
      DeleteKeepsOthers(tasks, id);
      tasks := Deleted(tasks, id);
    }
  }
}
