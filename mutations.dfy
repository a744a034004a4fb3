/** The mutations of `useTaskManager` as functions from the old collection
    to the new one: `createTask` prepends a task with a generated id,
    `updateTask` merges a partial task into the tasks with a given id,
    `deleteTask` drops the tasks with a given id. */
module Mutations {
  import opened Text
  import opened TaskTypes
  import opened Seqs
  import opened View

  /** The number added to the collection size to make the id's sequence number. */
  const IdOffset: nat := 133

  /** `OPS-` and the collection size plus 133, zero-padded to six digits. */
  function TaskId(count: nat): (id: string)
    ensures |id| >= 10 && id[..4] == "OPS-"
    ensures count + IdOffset < 1000000 ==> |id| == 10
  {
    var digits := PadStart(NatToDecimal(count + IdOffset), 6, '0');
    SixDigits(count + IdOffset);
    "OPS-" + digits
  }

  lemma SixDigits(n: nat)
    ensures n < 1000000 ==> |NatToDecimal(n)| <= 6
  {
    if n < 1000000 {
      assert Pow10(6) == 1000000;
      DecimalLength(n, 6);
    }
  }

  /** After the prefix the id is all digits, and they spell the size plus
      133. */
  lemma TaskIdDigits(count: nat)
    ensures AllDigits(TaskId(count)[4..]) && DecimalValue(TaskId(count)[4..]) == count + IdOffset
  {
    var digits := PadStart(NatToDecimal(count + IdOffset), 6, '0');
    PaddedDecimalValue(count + IdOffset, 6);
    assert TaskId(count)[4..] == digits;
  }

  /** Different collection sizes give different ids. */
  lemma TaskIdInjective(m: nat, n: nat)
    ensures TaskId(m) == TaskId(n) <==> m == n
  {
    TaskIdDigits(m);
    TaskIdDigits(n);
    if TaskId(m) == TaskId(n) {
      assert DecimalValue(TaskId(m)[4..]) == DecimalValue(TaskId(n)[4..]);
    }
  }

  /** The form's data, as a task carries it. */
  function DataOf(t: Task): TaskData {
    TaskData(t.title, t.description, t.priority, t.status, t.assignee, t.dueDate,
             t.tags, t.department, t.attachmentsCount)
  }

  /** `{ ...taskData, id, createdAt }`. */
  function NewTask(d: TaskData, id: string, createdAt: string): (t: Task)
    ensures t.id == id && t.createdAt == createdAt && DataOf(t) == d
  {
    Task(id, d.title, d.description, d.priority, d.status, d.assignee, d.dueDate,
         createdAt, d.tags, d.department, d.attachmentsCount)
  }

  /** `createTask`: the new task, with the id drawn from the current size and
      the date passed in, goes in front of the existing ones. */
  function Created(tasks: seq<Task>, d: TaskData, today: string): (r: seq<Task>)
    ensures |r| == |tasks| + 1 && r[1..] == tasks
    ensures r[0].id == TaskId(|tasks|) && r[0].createdAt == today && DataOf(r[0]) == d
  {
    [NewTask(d, TaskId(|tasks|), today)] + tasks
  }

  /** `{ ...task, ...taskData }`: each field present in the patch wins. */
  function ApplyPatch(t: Task, p: TaskPatch): (r: Task)
    ensures r.id == (if p.id.Some? then p.id.value else t.id)
    ensures r.title == (if p.title.Some? then p.title.value else t.title)
    ensures r.description == (if p.description.Some? then p.description.value else t.description)
    ensures r.priority == (if p.priority.Some? then p.priority.value else t.priority)
    ensures r.status == (if p.status.Some? then p.status.value else t.status)
    ensures r.assignee == (if p.assignee.Some? then p.assignee.value else t.assignee)
    ensures r.dueDate == (if p.dueDate.Some? then p.dueDate.value else t.dueDate)
    ensures r.createdAt == (if p.createdAt.Some? then p.createdAt.value else t.createdAt)
    ensures r.tags == (if p.tags.Some? then p.tags.value else t.tags)
    ensures r.department == (if p.department.Some? then p.department.value else t.department)
    ensures r.attachmentsCount == (if p.attachmentsCount.Some? then p.attachmentsCount.value else t.attachmentsCount)
  {
    Task(p.id.GetOr(t.id), p.title.GetOr(t.title), p.description.GetOr(t.description),
         p.priority.GetOr(t.priority), p.status.GetOr(t.status), p.assignee.GetOr(t.assignee),
         p.dueDate.GetOr(t.dueDate), p.createdAt.GetOr(t.createdAt), p.tags.GetOr(t.tags),
         p.department.GetOr(t.department), p.attachmentsCount.GetOr(t.attachmentsCount))
  }

  /** The patch the dashboard passes: every form field, but no id and no
      creation date. */
  function PatchOf(d: TaskData): (p: TaskPatch)
    ensures p.id.None? && p.createdAt.None?
    ensures p.title.Some? && p.description.Some? && p.priority.Some? && p.status.Some?
    ensures p.assignee.Some? && p.dueDate.Some? && p.tags.Some? && p.department.Some?
    ensures p.attachmentsCount.Some?
  {
    TaskPatch(None, Some(d.title), Some(d.description), Some(d.priority), Some(d.status),
              Some(d.assignee), Some(d.dueDate), None, Some(d.tags), Some(d.department),
              Some(d.attachmentsCount))
  }

  /** Saving form data over a task replaces exactly the form's fields. */
  lemma PatchOfData(t: Task, d: TaskData)
    ensures ApplyPatch(t, PatchOf(d)).id == t.id
    ensures ApplyPatch(t, PatchOf(d)).createdAt == t.createdAt
    ensures DataOf(ApplyPatch(t, PatchOf(d))) == d
  {
  }

  /** `updateTask`: the tasks with the id get the patch, the rest are left
      alone, and the length and order stay. */
  function Updated(tasks: seq<Task>, id: string, p: TaskPatch): (r: seq<Task>)
    ensures |r| == |tasks|
    ensures forall i :: 0 <= i < |r| && tasks[i].id == id ==> r[i] == ApplyPatch(tasks[i], p)
    ensures forall i :: 0 <= i < |r| && tasks[i].id != id ==> r[i] == tasks[i]
  {
    if tasks == [] then []
    else
      [if tasks[0].id == id then ApplyPatch(tasks[0], p) else tasks[0]] + Updated(tasks[1..], id, p)
  }

  predicate HasId(tasks: seq<Task>, id: string) {
    exists i :: 0 <= i < |tasks| && tasks[i].id == id
  }

  /** An unknown id leaves the collection as it was. */
  lemma UpdateUnknownId(tasks: seq<Task>, id: string, p: TaskPatch)
    requires !HasId(tasks, id)
    ensures Updated(tasks, id, p) == tasks
  {
  }

  /** A patch without an id keeps every task's id and creation date. */
  lemma UpdateKeepsIdentity(tasks: seq<Task>, id: string, p: TaskPatch)
    requires p.id.None? && p.createdAt.None?
    ensures forall i :: 0 <= i < |tasks| ==>
      Updated(tasks, id, p)[i].id == tasks[i].id && Updated(tasks, id, p)[i].createdAt == tasks[i].createdAt
  {
  }

  function IdIsNot(id: string): Task -> bool {
    (t: Task) => t.id != id
  }

  function IdIs(id: string): Task -> bool {
    (t: Task) => t.id == id
  }

  /** `deleteTask`. */
  function Deleted(tasks: seq<Task>, id: string): (r: seq<Task>)
    ensures forall i :: 0 <= i < |r| ==> r[i].id != id
    ensures IsSubsequence(r, tasks)
    ensures |r| == |tasks| - |Keep(tasks, IdIs(id))|
  {
    KeepSubsequence(tasks, IdIsNot(id));
    KeepSplitsLength(tasks, IdIs(id), IdIsNot(id));
    Keep(tasks, IdIsNot(id))
  }

  /** Every task with another id survives a delete. */
  lemma DeleteKeepsOthers(tasks: seq<Task>, id: string)
    ensures forall i :: 0 <= i < |tasks| && tasks[i].id != id ==> tasks[i] in Deleted(tasks, id)
  {
  }

  lemma DeleteUnknownId(tasks: seq<Task>, id: string)
    requires !HasId(tasks, id)
    ensures Deleted(tasks, id) == tasks
  {
    KeepEverything(tasks, IdIsNot(id));
  }

  /** Deleting an id that one task carries shrinks the collection by one. */
  lemma DeleteUniqueId(tasks: seq<Task>, id: string)
    requires |Keep(tasks, IdIs(id))| == 1
    ensures |Deleted(tasks, id)| == |tasks| - 1
  {
  }

  /** The id scheme does not survive deletes: create, delete an older task,
      create again, and two tasks carry the same id. */
  lemma {:induction false} IdReuseAfterDelete(tasks: seq<Task>, d1: TaskData, d2: TaskData, today: string, victim: string)
    requires |Keep(tasks, IdIs(victim))| == 1 && victim != TaskId(|tasks|)
    ensures var after := Created(Deleted(Created(tasks, d1, today), victim), d2, today);
      after[0].id == TaskId(|tasks|) && exists i :: 1 <= i < |after| && after[i].id == after[0].id
  {
    var once := Created(tasks, d1, today);
    assert once == [once[0]] + tasks;
    assert Keep(once, IdIs(victim)) == Keep(tasks, IdIs(victim));
    var pruned := Deleted(once, victim);
    assert |pruned| == |tasks|;
    assert pruned == [once[0]] + Keep(tasks, IdIsNot(victim));
    var after := Created(pruned, d2, today);
    assert after[1] == once[0];
  }

  /** The state after a create, seen through an unfiltered, unsorted first
      page: the new task comes first. */
  lemma CreatedComesFirst(tasks: seq<Task>, d: TaskData, today: string, dir: SortDirection, size: int)
    requires size > 0
    ensures var page := PageSlice(VisibleTasks(Created(tasks, d, today), EmptyFilters, NoSort, dir), 1, size);
      page != [] && page[0] == Created(tasks, d, today)[0]
  {
    EmptyFiltersKeepAll(Created(tasks, d, today));
  }

  /** After a delete, no derived view shows the id. */
  lemma DeletedIdNotShown(tasks: seq<Task>, id: string, f: TaskFilters, field: SortField, dir: SortDirection, page: int, size: int)
    requires size > 0
    ensures forall t :: t in PageSlice(VisibleTasks(Deleted(tasks, id), f, field, dir), page, size) ==> t.id != id
  {
    var v := VisibleTasks(Deleted(tasks, id), f, field, dir);
    VisibleMembership(Deleted(tasks, id), f, field, dir);
    PageIsSlice(v, page, size);
  }

  /** Whatever a page shows is in the list it pages. */
  lemma PageIsSlice(s: seq<Task>, page: int, size: int)
    requires size > 0
    ensures forall t :: t in PageSlice(s, page, size) ==> t in s
  {
  }

  /** A create adds one to the total and to the count of the new task's
      status, and leaves the other statuses alone. */
  lemma CreateCounts(tasks: seq<Task>, d: TaskData, today: string)
    ensures var before, after := CountByStatus(tasks), CountByStatus(Created(tasks, d, today));
      && after.total == before.total + 1
      && after.backlog == before.backlog + (if d.status == Backlog then 1 else 0)
      && after.inProgress == before.inProgress + (if d.status == InProgress then 1 else 0)
      && after.blocked == before.blocked + (if d.status == Blocked then 1 else 0)
      && after.done == before.done + (if d.status == Done then 1 else 0)
  {
    CreateCountsStatus(tasks, d, today, Backlog);
    CreateCountsStatus(tasks, d, today, InProgress);
    CreateCountsStatus(tasks, d, today, Blocked);
    CreateCountsStatus(tasks, d, today, Done);
  }

  lemma CreateCountsStatus(tasks: seq<Task>, d: TaskData, today: string, s: Status)
    ensures |Keep(Created(tasks, d, today), StatusPred(StatusName(s)))|
      == |Keep(tasks, StatusPred(StatusName(s)))| + (if d.status == s then 1 else 0)
  {
    var r := Created(tasks, d, today);
    assert r == [r[0]] + tasks;
    KeepCons(r[0], tasks, StatusPred(StatusName(s)));
    NamesAreDistinct();
  }
}
