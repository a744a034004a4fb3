/** The records and enumerations of the task dashboard. */
module TaskTypes {

  datatype Option<T> = None | Some(value: T) {
    function GetOr(default: T): T {
      match this
      case Some(v) => v
      case None => default
    }
  }

  datatype Priority = Low | Medium | High | Critical

  datatype Status = Backlog | InProgress | Blocked | Done

  datatype Department = Warehouse | Fleet | Procurement | CustomerService

  /** The string each priority is written as. */
  function PriorityName(p: Priority): string {
    match p
    case Low => "Low"
    case Medium => "Medium"
    case High => "High"
    case Critical => "Critical"
  }

  function StatusName(s: Status): string {
    match s
    case Backlog => "Backlog"
    case InProgress => "In Progress"
    case Blocked => "Blocked"
    case Done => "Done"
  }

  function DepartmentName(d: Department): string {
    match d
    case Warehouse => "Warehouse"
    case Fleet => "Fleet"
    case Procurement => "Procurement"
    case CustomerService => "Customer Service"
  }

  /** Distinct values are written differently, so a filter string selects at
      most one enumeration value. */
  lemma NamesAreDistinct()
    ensures forall p, q :: PriorityName(p) == PriorityName(q) ==> p == q
    ensures forall s, t :: StatusName(s) == StatusName(t) ==> s == t
    ensures forall d, e :: DepartmentName(d) == DepartmentName(e) ==> d == e
  {
  }

  datatype Task = Task(
    id: string,
    title: string,
    description: string,
    priority: Priority,
    status: Status,
    assignee: string,
    dueDate: string,
    createdAt: string,
    tags: seq<string>,
    department: Department,
    attachmentsCount: int)

  /** A task without `id` and `createdAt`: what the form hands to the store. */
  datatype TaskData = TaskData(
    title: string,
    description: string,
    priority: Priority,
    status: Status,
    assignee: string,
    dueDate: string,
    tags: seq<string>,
    department: Department,
    attachmentsCount: int)

  /** A partial task: the fields present (`Some`) replace the task's own. */
  datatype TaskPatch = TaskPatch(
    id: Option<string>,
    title: Option<string>,
    description: Option<string>,
    priority: Option<Priority>,
    status: Option<Status>,
    assignee: Option<string>,
    dueDate: Option<string>,
    createdAt: Option<string>,
    tags: Option<seq<string>>,
    department: Option<Department>,
    attachmentsCount: Option<int>)

  /** Six string filters; the empty string means "no constraint". */
  datatype TaskFilters = TaskFilters(
    search: string,
    status: string,
    priority: string,
    department: string,
    dueDateFrom: string,
    dueDateTo: string)

  datatype FilterKey = SearchKey | StatusKey | PriorityKey | DepartmentKey | DueDateFromKey | DueDateToKey

  /** The sort field; `NoSort` is the source's `null`. */
  datatype SortField = NoSort | DueDateField | PriorityField

  datatype SortDirection = Asc | Desc
}
