/** `OperationsDashboard`: which modal is open, which task is selected, the
    toast list, and the handlers that route the user's actions to the
    store. */
module Dashboard {
  import opened TaskTypes
  import opened Seqs
  import opened View
  import opened Mutations
  import opened Store

  datatype ToastKind = Success | Error | Info

  datatype ToastMessage = ToastMessage(id: string, kind: ToastKind, message: string)

  const UpdatedMessage: string := "Task updated successfully"
  const CreatedMessage: string := "Task created successfully"
  const DeletedMessage: string := "Task deleted successfully"

  function ToastIdIsNot(id: string): ToastMessage -> bool {
    (t: ToastMessage) => t.id != id
  }

  function ToastIdIs(id: string): ToastMessage -> bool {
    (t: ToastMessage) => t.id == id
  }

  /** `removeToast(id)` on the list: every toast with that id goes, the
      others stay in order, and exactly as many go as carried the id. */
  function WithoutToast(toasts: seq<ToastMessage>, id: string): (r: seq<ToastMessage>)
    ensures forall i :: 0 <= i < |r| ==> r[i].id != id
    ensures forall i :: 0 <= i < |toasts| && toasts[i].id != id ==> toasts[i] in r
    ensures IsSubsequence(r, toasts)
    ensures |r| == |toasts| - |Keep(toasts, ToastIdIs(id))|
  {
    KeepSubsequence(toasts, ToastIdIsNot(id));
    KeepSplitsLength(toasts, ToastIdIs(id), ToastIdIsNot(id));
    Keep(toasts, ToastIdIsNot(id))
  }

  /** Removing the toast just added, under an id no other toast has, gives
      the list back. */
  lemma AddThenRemove(toasts: seq<ToastMessage>, t: ToastMessage)
    requires forall i :: 0 <= i < |toasts| ==> toasts[i].id != t.id
    ensures WithoutToast(toasts + [t], t.id) == toasts
  {
    KeepAppend(toasts, [t], ToastIdIsNot(t.id));
    KeepEverything(toasts, ToastIdIsNot(t.id));
    assert [t][1..] == [];
  }

  /** Toast ids come from the clock: two toasts raised under the same id
      are dismissed together. */
  lemma SharedIdRemovesBoth(toasts: seq<ToastMessage>, a: ToastMessage, b: ToastMessage)
    requires a.id == b.id
    ensures WithoutToast(toasts + [a, b], a.id) == WithoutToast(toasts, a.id)
  {
    KeepAppend(toasts, [a, b], ToastIdIsNot(a.id));
    assert [a, b][1..] == [b] && [b][1..] == [];
  }

  /** The status filter a summary card click leaves: the card's own key
      switches that filter off again. */
  function CardFilter(active: string, key: string): (r: string)
    ensures r == "" || r == key
    ensures r == key <==> active != key || key == ""
  {
    if active == key then "" else key
  }

  /** The Total card has the key `""` and always clears the status filter;
      any other card clicked twice from no filter leaves no filter. */
  lemma CardClicks(active: string, key: string)
    ensures CardFilter(active, "") == ""
    ensures CardFilter(CardFilter("", key), key) == ""
    ensures key != "" && active != key ==> CardFilter(active, key) == key
  {
  }

  class OperationsDashboard {
    var showFormModal: bool
    var showViewModal: bool
    var showDeleteModal: bool
    var selectedTask: Option<Task>
    var toasts: seq<ToastMessage>
    const store: TaskStore

    predicate Valid()
      reads this, store
    {
      store.Valid()
    }

    /** The first render: nothing open, nothing selected, no toasts. */
    constructor(initialTasks: seq<Task>)
      ensures fresh(store) && Valid()
      ensures !showFormModal && !showViewModal && !showDeleteModal
      ensures selectedTask == None && toasts == []
      ensures store.tasks == initialTasks && store.filters == EmptyFilters
      ensures store.sortField == NoSort && store.sortDirection == Asc
      ensures store.currentPage == 1 && store.pageSize == 10
    {
      showFormModal := false;
      showViewModal := false;
      showDeleteModal := false;
      selectedTask := None;
      toasts := [];
      store := new TaskStore(initialTasks);
    }

    /** `addToast(kind, message)` with the clock's id passed in. */
    method AddToast(kind: ToastKind, message: string, id: string)
      modifies this
      ensures toasts == old(toasts) + [ToastMessage(id, kind, message)]
      ensures showFormModal == old(showFormModal) && showViewModal == old(showViewModal)
      ensures showDeleteModal == old(showDeleteModal) && selectedTask == old(selectedTask)
    {
      toasts := toasts + [ToastMessage(id, kind, message)];
    }

    /** `removeToast(id)`. */
    method RemoveToast(id: string)
      modifies this
      ensures toasts == WithoutToast(old(toasts), id)
      ensures showFormModal == old(showFormModal) && showViewModal == old(showViewModal)
      ensures showDeleteModal == old(showDeleteModal) && selectedTask == old(selectedTask)
    {
      toasts := WithoutToast(toasts, id);
    }

    /** `handleNewTask`: an empty form for a new task. */
    method HandleNewTask()
      modifies this
      ensures selectedTask == None && showFormModal
      ensures showViewModal == old(showViewModal) && showDeleteModal == old(showDeleteModal)
      ensures toasts == old(toasts)
    {
      selectedTask := None;
      showFormModal := true;
    }

    /** `handleView(task)`. */
    method HandleView(task: Task)
      modifies this
      ensures selectedTask == Some(task) && showViewModal
      ensures showFormModal == old(showFormModal) && showDeleteModal == old(showDeleteModal)
      ensures toasts == old(toasts)
    {
      selectedTask := Some(task);
      showViewModal := true;
    }

    /** `handleEdit(task)`. */
    method HandleEdit(task: Task)
      modifies this
      ensures selectedTask == Some(task) && showFormModal
      ensures showViewModal == old(showViewModal) && showDeleteModal == old(showDeleteModal)
      ensures toasts == old(toasts)
    {
      selectedTask := Some(task);
      showFormModal := true;
    }

    /** `handleEditFromView`: the viewed task moves from the view modal to
        the form, still selected. */
    method HandleEditFromView()
      modifies this
      ensures !showViewModal && showFormModal && selectedTask == old(selectedTask)
      ensures showDeleteModal == old(showDeleteModal) && toasts == old(toasts)
    {
      showViewModal := false;
      showFormModal := true;
    }

    /** `handleDelete(task)`: ask for confirmation. */
    method HandleDelete(task: Task)
      modifies this
      ensures selectedTask == Some(task) && showDeleteModal
      ensures showFormModal == old(showFormModal) && showViewModal == old(showViewModal)
      ensures toasts == old(toasts)
    {
      selectedTask := Some(task);
      showDeleteModal := true;
    }

    /** `handleSaveTask(data)`: an update of the selected task, or a create
        dated `today` when nothing is selected, then a success toast; the
        form closes and the selection clears. */
    method HandleSaveTask(data: TaskData, today: string, toastId: string)
      requires Valid()
      modifies this, store
      ensures Valid()
      ensures old(selectedTask).Some? ==>
        && store.tasks == Updated(old(store.tasks), old(selectedTask).value.id, PatchOf(data))
        && toasts == old(toasts) + [ToastMessage(toastId, Success, UpdatedMessage)]
      ensures old(selectedTask).None? ==>
        && store.tasks == Created(old(store.tasks), data, today)
        && toasts == old(toasts) + [ToastMessage(toastId, Success, CreatedMessage)]
      ensures !showFormModal && selectedTask == None
      ensures showViewModal == old(showViewModal) && showDeleteModal == old(showDeleteModal)
      ensures store.filters == old(store.filters) && store.sortField == old(store.sortField)
      ensures store.sortDirection == old(store.sortDirection)
      ensures store.currentPage == old(store.currentPage) && store.pageSize == old(store.pageSize)
    {
      match selectedTask {
        case Some(t) =>
          store.UpdateTask(t.id, PatchOf(data));
          AddToast(Success, UpdatedMessage, toastId);
        case None =>
          var _ := store.CreateTask(data, today);
          AddToast(Success, CreatedMessage, toastId);
      }
      showFormModal := false;
      selectedTask := None;
    }

    /** `handleConfirmDelete`: delete the selected task, if any, with a
        toast; the delete modal closes and the selection clears either way. */
    method HandleConfirmDelete(toastId: string)
      requires Valid()
      modifies this, store
      ensures Valid()
      ensures old(selectedTask).Some? ==>
        && store.tasks == Deleted(old(store.tasks), old(selectedTask).value.id)
        && toasts == old(toasts) + [ToastMessage(toastId, Success, DeletedMessage)]
      ensures old(selectedTask).None? ==> store.tasks == old(store.tasks) && toasts == old(toasts)
      ensures !showDeleteModal && selectedTask == None
      ensures showFormModal == old(showFormModal) && showViewModal == old(showViewModal)
      ensures store.filters == old(store.filters) && store.sortField == old(store.sortField)
      ensures store.sortDirection == old(store.sortDirection)
      ensures store.currentPage == old(store.currentPage) && store.pageSize == old(store.pageSize)
    {
      if selectedTask.Some? {
        store.DeleteTask(selectedTask.value.id);
        AddToast(Success, DeletedMessage, toastId);
      }
      showDeleteModal := false;
      selectedTask := None;
    }

    /** `handleStatusCardClick(key)`. */
    method HandleStatusCardClick(key: string)
      requires Valid()
      modifies store
      ensures Valid()
      ensures store.filters == WithFilter(old(store.filters), StatusKey, CardFilter(old(store.filters).status, key))
      ensures store.currentPage == 1
      ensures store.tasks == old(store.tasks) && store.sortField == old(store.sortField)
      ensures store.sortDirection == old(store.sortDirection) && store.pageSize == old(store.pageSize)
    {
      store.UpdateFilter(StatusKey, if store.filters.status == key then "" else key);
    }

    /** The search box's `onSearchChange`. */
    method HandleSearchChange(value: string)
      requires Valid()
      modifies store
      ensures Valid()
      ensures store.filters == WithFilter(old(store.filters), SearchKey, value)
      ensures store.currentPage == 1
      ensures store.tasks == old(store.tasks) && store.sortField == old(store.sortField)
      ensures store.sortDirection == old(store.sortDirection) && store.pageSize == old(store.pageSize)
    {
      store.UpdateFilter(SearchKey, value);
    }

    /** The pager's `onPageChange`. */
    method HandlePageChange(page: int)
      requires Valid()
      modifies store
      ensures Valid()
      ensures store.currentPage == page
      ensures store.tasks == old(store.tasks) && store.filters == old(store.filters)
      ensures store.sortField == old(store.sortField) && store.sortDirection == old(store.sortDirection)
      ensures store.pageSize == old(store.pageSize)
    {
      store.SetCurrentPage(page);
    }

    /** The pager's `onPageSizeChange`: the new size, then back to page 1. */
    method HandlePageSizeChange(size: int)
      requires size > 0
      modifies store
      ensures Valid()
      ensures store.pageSize == size && store.currentPage == 1
      ensures store.tasks == old(store.tasks) && store.filters == old(store.filters)
      ensures store.sortField == old(store.sortField) && store.sortDirection == old(store.sortDirection)
    {
      store.SetPageSize(size);
      store.SetCurrentPage(1);
    }

    /** The form modal's `onClose`. */
    method CloseForm()
      modifies this
      ensures !showFormModal && selectedTask == None
      ensures showViewModal == old(showViewModal) && showDeleteModal == old(showDeleteModal)
      ensures toasts == old(toasts)
    {
      showFormModal := false;
      selectedTask := None;
    }

    /** The view modal's `onClose`. */
    method CloseView()
      modifies this
      ensures !showViewModal && selectedTask == None
      ensures showFormModal == old(showFormModal) && showDeleteModal == old(showDeleteModal)
      ensures toasts == old(toasts)
    {
      showViewModal := false;
      selectedTask := None;
    }

    /** The delete modal's `onClose`. */
    method CloseDelete()
      modifies this
      ensures !showDeleteModal && selectedTask == None
      ensures showFormModal == old(showFormModal) && showViewModal == old(showViewModal)
      ensures toasts == old(toasts)
    {
      showDeleteModal := false;
      selectedTask := None;
    }
  }
}
