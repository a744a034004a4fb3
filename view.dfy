/** The view `useTaskManager` derives from its state: the filtered list
    (six conditional filter passes), its stable sort by due date or priority,
    the page slice, the page count and the status counts over the whole
    collection. Everything here is a pure function of the store's fields. */
module View {
  import opened Text
  import opened TaskTypes
  import opened Seqs

  // ---------------------------------------------------------------------
  // Filter configuration
  // ---------------------------------------------------------------------

  const EmptyFilters: TaskFilters := TaskFilters("", "", "", "", "", "")

  function FilterField(f: TaskFilters, key: FilterKey): string {
    match key
    case SearchKey => f.search
    case StatusKey => f.status
    case PriorityKey => f.priority
    case DepartmentKey => f.department
    case DueDateFromKey => f.dueDateFrom
    case DueDateToKey => f.dueDateTo
  }

  /** `{ ...prev, [key]: value }`: only the field `key` changes. */
  function WithFilter(f: TaskFilters, key: FilterKey, value: string): (r: TaskFilters)
    ensures FilterField(r, key) == value
    ensures forall k :: k != key ==> FilterField(r, k) == FilterField(f, k)
  {
    match key
    case SearchKey => f.(search := value)
    case StatusKey => f.(status := value)
    case PriorityKey => f.(priority := value)
    case DepartmentKey => f.(department := value)
    case DueDateFromKey => f.(dueDateFrom := value)
    case DueDateToKey => f.(dueDateTo := value)
  }

  lemma EmptyFiltersAreEmpty()
    ensures forall k :: FilterField(EmptyFilters, k) == ""
  {
  }

  // ---------------------------------------------------------------------
  // The filter stage
  // ---------------------------------------------------------------------

  /** The search test on an already lower-cased needle: id, title, assignee
      or any tag contains it, ignoring ASCII case. */
  predicate SearchHit(t: Task, needle: string): (r: bool)
    ensures needle == [] ==> r
  {
    assert [] <= Lower(t.id)[0..];
    || Contains(Lower(t.id), needle)
    || Contains(Lower(t.title), needle)
    || Contains(Lower(t.assignee), needle)
    || exists i :: 0 <= i < |t.tags| && Contains(Lower(t.tags[i]), needle)
  }

  function SearchPred(needle: string): Task -> bool {
    (t: Task) => SearchHit(t, needle)
  }

  function StatusPred(value: string): Task -> bool {
    (t: Task) => StatusName(t.status) == value
  }

  function PriorityPred(value: string): Task -> bool {
    (t: Task) => PriorityName(t.priority) == value
  }

  function DepartmentPred(value: string): Task -> bool {
    (t: Task) => DepartmentName(t.department) == value
  }

  /** `task.dueDate >= from`, which JavaScript evaluates as `!(dueDate < from)`. */
  function DueFromPred(from: string): Task -> bool {
    (t: Task) => !StrLess(t.dueDate, from)
  }

  /** `task.dueDate <= to`, evaluated as `!(to < dueDate)`. */
  function DueToPred(to: string): Task -> bool {
    (t: Task) => !StrLess(to, t.dueDate)
  }

  /** One `if (field) result = result.filter(pred)` step. */
  function Pass(s: seq<Task>, active: bool, p: Task -> bool): (r: seq<Task>)
    ensures |r| <= |s| && multiset(r) <= multiset(s)
  {
    if active then Keep(s, p) else s
  }

  /** The filter passes in the order the hook runs them, each only when its
      field is non-empty. */
  function FilterTasks(tasks: seq<Task>, f: TaskFilters): (r: seq<Task>)
    ensures |r| <= |tasks|
    ensures multiset(r) <= multiset(tasks)
  {
    var afterSearch := Pass(tasks, f.search != "", SearchPred(Lower(f.search)));
    var afterStatus := Pass(afterSearch, f.status != "", StatusPred(f.status));
    var afterPriority := Pass(afterStatus, f.priority != "", PriorityPred(f.priority));
    var afterDepartment := Pass(afterPriority, f.department != "", DepartmentPred(f.department));
    var afterFrom := Pass(afterDepartment, f.dueDateFrom != "", DueFromPred(f.dueDateFrom));
    Pass(afterFrom, f.dueDateTo != "", DueToPred(f.dueDateTo))
  }

  /** The reference definition of which tasks the filters admit: every
      non-empty field is a constraint, the constraints are conjoined, and the
      date bounds are inclusive. */
  predicate Matches(t: Task, f: TaskFilters) {
    && (f.search == "" || SearchHit(t, Lower(f.search)))
    && (f.status == "" || StatusName(t.status) == f.status)
    && (f.priority == "" || PriorityName(t.priority) == f.priority)
    && (f.department == "" || DepartmentName(t.department) == f.department)
    && (f.dueDateFrom == "" || t.dueDate == f.dueDateFrom || StrLess(f.dueDateFrom, t.dueDate))
    && (f.dueDateTo == "" || t.dueDate == f.dueDateTo || StrLess(t.dueDate, f.dueDateTo))
  }

  function MatchesPred(f: TaskFilters): Task -> bool {
    (t: Task) => Matches(t, f)
  }

  /** The first `k` passes, as one predicate. */
  predicate PassesFirst(t: Task, f: TaskFilters, k: nat) {
    && (k >= 1 ==> f.search == "" || SearchHit(t, Lower(f.search)))
    && (k >= 2 ==> f.status == "" || StatusName(t.status) == f.status)
    && (k >= 3 ==> f.priority == "" || PriorityName(t.priority) == f.priority)
    && (k >= 4 ==> f.department == "" || DepartmentName(t.department) == f.department)
    && (k >= 5 ==> f.dueDateFrom == "" || !StrLess(t.dueDate, f.dueDateFrom))
    && (k >= 6 ==> f.dueDateTo == "" || !StrLess(f.dueDateTo, t.dueDate))
  }

  function FirstPred(f: TaskFilters, k: nat): Task -> bool {
    (t: Task) => PassesFirst(t, f, k)
  }

  /** Whether pass `k` (1 to 6) runs, and its predicate. */
  function StageActive(f: TaskFilters, k: nat): bool {
    if k == 1 then f.search != ""
    else if k == 2 then f.status != ""
    else if k == 3 then f.priority != ""
    else if k == 4 then f.department != ""
    else if k == 5 then f.dueDateFrom != ""
    else f.dueDateTo != ""
  }

  function StagePred(f: TaskFilters, k: nat): Task -> bool {
    if k == 1 then SearchPred(Lower(f.search))
    else if k == 2 then StatusPred(f.status)
    else if k == 3 then PriorityPred(f.priority)
    else if k == 4 then DepartmentPred(f.department)
    else if k == 5 then DueFromPred(f.dueDateFrom)
    else DueToPred(f.dueDateTo)
  }

  /** Running pass `k` on the output of the first `k - 1`. */
  lemma StageStep(tasks: seq<Task>, f: TaskFilters, k: nat)
    requires 1 <= k <= 6
    ensures Pass(Keep(tasks, FirstPred(f, k - 1)), StageActive(f, k), StagePred(f, k)) == Keep(tasks, FirstPred(f, k))
  {
    var active, q := StageActive(f, k), StagePred(f, k);
    forall x ensures FirstPred(f, k)(x) == (FirstPred(f, k - 1)(x) && (!active || q(x))) {
    }
    KeepStage(tasks, FirstPred(f, k - 1), active, q, FirstPred(f, k));
  }

  lemma FirstSixIsMatches(f: TaskFilters)
    ensures forall t :: FirstPred(f, 6)(t) == MatchesPred(f)(t)
  {
    forall t ensures FirstPred(f, 6)(t) == MatchesPred(f)(t) {
      NotLessIsAtLeast(t.dueDate, f.dueDateFrom);
      NotLessIsAtLeast(f.dueDateTo, t.dueDate);
    }
  }

  lemma SearchStage(tasks: seq<Task>, f: TaskFilters)
    ensures Pass(Keep(tasks, FirstPred(f, 0)), f.search != "", SearchPred(Lower(f.search))) == Keep(tasks, FirstPred(f, 1))
  {
    assert StageActive(f, 1) == (f.search != "");
    assert StagePred(f, 1) == SearchPred(Lower(f.search));
    StageStep(tasks, f, 1);
  }

  lemma StatusStage(tasks: seq<Task>, f: TaskFilters)
    ensures Pass(Keep(tasks, FirstPred(f, 1)), f.status != "", StatusPred(f.status)) == Keep(tasks, FirstPred(f, 2))
  {
    assert StageActive(f, 2) == (f.status != "");
    assert StagePred(f, 2) == StatusPred(f.status);
    StageStep(tasks, f, 2);
  }

  lemma PriorityStage(tasks: seq<Task>, f: TaskFilters)
    ensures Pass(Keep(tasks, FirstPred(f, 2)), f.priority != "", PriorityPred(f.priority)) == Keep(tasks, FirstPred(f, 3))
  {
    assert StageActive(f, 3) == (f.priority != "");
    assert StagePred(f, 3) == PriorityPred(f.priority);
    StageStep(tasks, f, 3);
  }

  lemma DepartmentStage(tasks: seq<Task>, f: TaskFilters)
    ensures Pass(Keep(tasks, FirstPred(f, 3)), f.department != "", DepartmentPred(f.department)) == Keep(tasks, FirstPred(f, 4))
  {
    assert StageActive(f, 4) == (f.department != "");
    assert StagePred(f, 4) == DepartmentPred(f.department);
    StageStep(tasks, f, 4);
  }

  lemma DueFromStage(tasks: seq<Task>, f: TaskFilters)
    ensures Pass(Keep(tasks, FirstPred(f, 4)), f.dueDateFrom != "", DueFromPred(f.dueDateFrom)) == Keep(tasks, FirstPred(f, 5))
  {
    assert StageActive(f, 5) == (f.dueDateFrom != "");
    assert StagePred(f, 5) == DueFromPred(f.dueDateFrom);
    StageStep(tasks, f, 5);
  }

  lemma DueToStage(tasks: seq<Task>, f: TaskFilters)
    ensures Pass(Keep(tasks, FirstPred(f, 5)), f.dueDateTo != "", DueToPred(f.dueDateTo)) == Keep(tasks, FirstPred(f, 6))
  {
    assert StageActive(f, 6) == (f.dueDateTo != "");
    assert StagePred(f, 6) == DueToPred(f.dueDateTo);
    StageStep(tasks, f, 6);
  }

  /** The six passes together are one filter by the conjunction `Matches`. */
  lemma FilterIsConjunction(tasks: seq<Task>, f: TaskFilters)
    ensures FilterTasks(tasks, f) == Keep(tasks, MatchesPred(f))
  {
    KeepEverything(tasks, FirstPred(f, 0));
    SearchStage(tasks, f);
    StatusStage(tasks, f);
    PriorityStage(tasks, f);
    DepartmentStage(tasks, f);
    DueFromStage(tasks, f);
    DueToStage(tasks, f);
    FirstSixIsMatches(f);
    KeepExtensional(tasks, FirstPred(f, 6), MatchesPred(f));
  }

  /** A task is in the filtered list iff it is in the collection and passes
      every active filter; the filtered list keeps the collection's order. */
  lemma FilterMembership(tasks: seq<Task>, f: TaskFilters)
    ensures IsSubsequence(FilterTasks(tasks, f), tasks)
    ensures forall i :: 0 <= i < |FilterTasks(tasks, f)| ==>
      FilterTasks(tasks, f)[i] in tasks && Matches(FilterTasks(tasks, f)[i], f)
    ensures forall i :: 0 <= i < |tasks| && Matches(tasks[i], f) ==> tasks[i] in FilterTasks(tasks, f)
  {
    FilterIsConjunction(tasks, f);
    KeepSubsequence(tasks, MatchesPred(f));
  }

  lemma EmptyFiltersKeepAll(tasks: seq<Task>)
    ensures FilterTasks(tasks, EmptyFilters) == tasks
  {
  }

  /** `g` asks at least what `f` asks: each field of `f` is empty or equal
      to the same field of `g`. */
  predicate Narrows(g: TaskFilters, f: TaskFilters) {
    forall k :: FilterField(f, k) == "" || FilterField(f, k) == FilterField(g, k)
  }

  lemma NarrowsMatches(t: Task, f: TaskFilters, g: TaskFilters)
    requires Narrows(g, f)
    ensures Matches(t, g) ==> Matches(t, f)
  {
    assert FilterField(f, SearchKey) == "" || FilterField(f, SearchKey) == FilterField(g, SearchKey);
    assert FilterField(f, StatusKey) == "" || FilterField(f, StatusKey) == FilterField(g, StatusKey);
    assert FilterField(f, PriorityKey) == "" || FilterField(f, PriorityKey) == FilterField(g, PriorityKey);
    assert FilterField(f, DepartmentKey) == "" || FilterField(f, DepartmentKey) == FilterField(g, DepartmentKey);
    assert FilterField(f, DueDateFromKey) == "" || FilterField(f, DueDateFromKey) == FilterField(g, DueDateFromKey);
    assert FilterField(f, DueDateToKey) == "" || FilterField(f, DueDateToKey) == FilterField(g, DueDateToKey);
  }

  /** Adding constraints never lets more tasks through. */
  lemma FilterNarrowing(tasks: seq<Task>, f: TaskFilters, g: TaskFilters)
    requires Narrows(g, f)
    ensures IsSubsequence(FilterTasks(tasks, g), FilterTasks(tasks, f))
    ensures |FilterTasks(tasks, g)| <= |FilterTasks(tasks, f)|
  {
    forall t ensures MatchesPred(g)(t) ==> MatchesPred(f)(t) {
      NarrowsMatches(t, f, g);
    }
    FilterIsConjunction(tasks, f);
    FilterIsConjunction(tasks, g);
    KeepMonotone(tasks, MatchesPred(f), MatchesPred(g));
  }

  /** The search is case-insensitive: two search strings that fold to the
      same lower-case string select the same tasks. */
  lemma SearchIgnoresCase(tasks: seq<Task>, f: TaskFilters, s1: string, s2: string)
    requires Lower(s1) == Lower(s2)
    ensures FilterTasks(tasks, f.(search := s1)) == FilterTasks(tasks, f.(search := s2))
  {
    assert |s1| == |Lower(s1)| == |Lower(s2)| == |s2|;
    assert s1 == "" <==> s2 == "";
  }

  // ---------------------------------------------------------------------
  // The sort stage
  // ---------------------------------------------------------------------

  /** `priorityOrder`: ranks Low 1, Medium 2, High 3, Critical 4. */
  function PriorityRank(p: Priority): (r: int)
    ensures 1 <= r <= 4
  {
    match p
    case Low => 1
    case Medium => 2
    case High => 3
    case Critical => 4
  }

  lemma PriorityRankIsOrder()
    ensures PriorityRank(Low) < PriorityRank(Medium) < PriorityRank(High) < PriorityRank(Critical)
    ensures forall p, q :: PriorityRank(p) == PriorityRank(q) ==> p == q
  {
  }

  /** The comparator before the direction is applied. */
  function Comparison(a: Task, b: Task, field: SortField): (c: int)
    ensures field == NoSort ==> c == 0
    ensures field == DueDateField ==> (c < 0 <==> StrLess(a.dueDate, b.dueDate)) && (c == 0 <==> a.dueDate == b.dueDate)
    ensures field == PriorityField ==> (c < 0 <==> PriorityRank(a.priority) < PriorityRank(b.priority))
    ensures field == PriorityField ==> (c == 0 <==> a.priority == b.priority)
  {
    PriorityRankIsOrder();
    match field
    case DueDateField => Compare(a.dueDate, b.dueDate)
    case PriorityField => PriorityRank(a.priority) - PriorityRank(b.priority)
    case NoSort => 0
  }

  /** The comparator handed to `sort`: negated for `desc`. */
  function Cmp(a: Task, b: Task, field: SortField, dir: SortDirection): (c: int)
    ensures c == 0 <==> Comparison(a, b, field) == 0
    ensures dir == Asc ==> c == Comparison(a, b, field)
    ensures dir == Desc ==> (c < 0 <==> Comparison(a, b, field) > 0)
  {
    var c := Comparison(a, b, field);
    if dir == Asc then c else -c
  }

  predicate InOrder(a: Task, b: Task, field: SortField, dir: SortDirection) {
    Cmp(a, b, field, dir) <= 0
  }

  /** The comparator finds no difference between `a` and `b`. */
  predicate SameKey(a: Task, b: Task, field: SortField) {
    Comparison(a, b, field) == 0
  }

  lemma SameKeyMeaning(a: Task, b: Task, field: SortField)
    ensures field == DueDateField ==> (SameKey(a, b, field) <==> a.dueDate == b.dueDate)
    ensures field == PriorityField ==> (SameKey(a, b, field) <==> a.priority == b.priority)
    ensures field == NoSort ==> SameKey(a, b, field)
  {
    PriorityRankIsOrder();
  }

  lemma CmpAntisymmetric(a: Task, b: Task, field: SortField, dir: SortDirection)
    ensures Cmp(a, b, field, dir) == 0 <==> SameKey(a, b, field)
    ensures Cmp(a, b, field, dir) < 0 <==> Cmp(b, a, field, dir) > 0
  {
    if field == DueDateField {
      StrLessTrichotomy(a.dueDate, b.dueDate);
    }
  }

  lemma CmpTransitive(a: Task, b: Task, c: Task, field: SortField, dir: SortDirection)
    requires InOrder(a, b, field, dir) && InOrder(b, c, field, dir)
    ensures InOrder(a, c, field, dir)
  {
    if field == DueDateField {
      if dir == Asc {
        if StrLess(a.dueDate, b.dueDate) && StrLess(b.dueDate, c.dueDate) {
          StrLessTransitive(a.dueDate, b.dueDate, c.dueDate);
        }
      } else {
        if StrLess(c.dueDate, b.dueDate) && StrLess(b.dueDate, a.dueDate) {
          StrLessTransitive(c.dueDate, b.dueDate, a.dueDate);
        }
      }
    }
  }

  lemma SameKeyTransitive(a: Task, b: Task, c: Task, field: SortField)
    requires SameKey(a, b, field) && SameKey(b, c, field)
    ensures SameKey(a, c, field) && SameKey(c, a, field)
  {
    SameKeyMeaning(a, b, field);
    SameKeyMeaning(b, c, field);
    SameKeyMeaning(a, c, field);
    SameKeyMeaning(c, a, field);
  }

  /** `desc` puts a pair in order exactly when `asc` puts it in the other
      order. */
  lemma DescReversesPairs(a: Task, b: Task, field: SortField)
    ensures InOrder(a, b, field, Desc) <==> InOrder(b, a, field, Asc)
  {
    CmpAntisymmetric(a, b, field, Asc);
  }

  /** What a sorted list looks like for each field and direction: ranks or
      dates never go down (`asc`) or never go up (`desc`). */
  lemma SortedMeaning(s: seq<Task>, field: SortField, dir: SortDirection)
    requires Sorted(s, field, dir)
    ensures field == PriorityField && dir == Asc ==>
      forall i, j :: 0 <= i < j < |s| ==> PriorityRank(s[i].priority) <= PriorityRank(s[j].priority)
    ensures field == PriorityField && dir == Desc ==>
      forall i, j :: 0 <= i < j < |s| ==> PriorityRank(s[i].priority) >= PriorityRank(s[j].priority)
    ensures field == DueDateField && dir == Asc ==>
      forall i, j :: 0 <= i < j < |s| ==> !StrLess(s[j].dueDate, s[i].dueDate)
    ensures field == DueDateField && dir == Desc ==>
      forall i, j :: 0 <= i < j < |s| ==> !StrLess(s[i].dueDate, s[j].dueDate)
  {
  }

  predicate Sorted(s: seq<Task>, field: SortField, dir: SortDirection) {
    forall i, j :: 0 <= i < j < |s| ==> InOrder(s[i], s[j], field, dir)
  }

  /** Insert `x` in front of the first element it does not come after. */
  function Insert(x: Task, s: seq<Task>, field: SortField, dir: SortDirection): (r: seq<Task>)
    ensures multiset(r) == multiset(s) + multiset{x}
  {
    if s == [] then [x]
    else if InOrder(x, s[0], field, dir) then [x] + s
    else
      assert s == [s[0]] + s[1..];
      [s[0]] + Insert(x, s[1..], field, dir)
  }

  /** An element in order with the head of a sorted list is in order with
      all of it. */
  lemma InOrderWithHead(x: Task, s: seq<Task>, field: SortField, dir: SortDirection)
    requires Sorted(s, field, dir) && s != [] && InOrder(x, s[0], field, dir)
    ensures Sorted([x] + s, field, dir)
  {
    var r := [x] + s;
    forall i, j | 0 <= i < j < |r| ensures InOrder(r[i], r[j], field, dir) {
      if i > 0 {
        assert r[i] == s[i - 1] && r[j] == s[j - 1];
      } else {
        assert r[j] == s[j - 1];
        if j > 1 {
          CmpTransitive(x, s[0], s[j - 1], field, dir);
        }
      }
    }
  }

  /** A head that is in order with every element of a sorted list. */
  lemma HeadInOrder(h: Task, rest: seq<Task>, field: SortField, dir: SortDirection)
    requires Sorted(rest, field, dir)
    requires forall k :: 0 <= k < |rest| ==> InOrder(h, rest[k], field, dir)
    ensures Sorted([h] + rest, field, dir)
  {
    var r := [h] + rest;
    forall i, j | 0 <= i < j < |r| ensures InOrder(r[i], r[j], field, dir) {
      assert r[j] == rest[j - 1];
      if i > 0 {
        assert r[i] == rest[i - 1];
      }
    }
  }

  /** Whatever is in the multiset of a sorted list's tail is in order after
      its head. */
  lemma InOrderAfterHead(s: seq<Task>, y: Task, field: SortField, dir: SortDirection)
    requires Sorted(s, field, dir) && s != [] && y in multiset(s[1..])
    ensures InOrder(s[0], y, field, dir)
  {
    var j :| 0 <= j < |s[1..]| && s[1..][j] == y;
    assert s[j + 1] == y;
  }

  lemma {:induction false} InsertSorted(x: Task, s: seq<Task>, field: SortField, dir: SortDirection)
    requires Sorted(s, field, dir)
    ensures Sorted(Insert(x, s, field, dir), field, dir)
  {
    if s != [] {
      if InOrder(x, s[0], field, dir) {
        InOrderWithHead(x, s, field, dir);
      } else {
        var rest := Insert(x, s[1..], field, dir);
        InsertSorted(x, s[1..], field, dir);
        CmpAntisymmetric(x, s[0], field, dir);
        forall k | 0 <= k < |rest| ensures InOrder(s[0], rest[k], field, dir) {
          assert rest[k] in multiset(rest);
          if rest[k] != x {
            InOrderAfterHead(s, rest[k], field, dir);
          }
        }
        HeadInOrder(s[0], rest, field, dir);
      }
    }
  }

  /** Insertion sort, taking the elements from the back; an element is put
      before the equal keys already placed, which are the ones that followed
      it, so ties keep their order. */
  function StableSort(s: seq<Task>, field: SortField, dir: SortDirection): (r: seq<Task>)
    ensures Sorted(r, field, dir)
    ensures multiset(r) == multiset(s)
    ensures |r| == |s|
  {
    if s == [] then []
    else
      var rest := StableSort(s[1..], field, dir);
      InsertSorted(s[0], rest, field, dir);
      assert s == [s[0]] + s[1..];
      Insert(s[0], rest, field, dir)
  }

  function SameKeyPred(x: Task, field: SortField): Task -> bool {
    (t: Task) => SameKey(t, x, field)
  }

  lemma {:induction false} InsertKeepsTies(x: Task, s: seq<Task>, field: SortField, dir: SortDirection, y: Task)
    ensures Keep(Insert(x, s, field, dir), SameKeyPred(y, field)) == Keep([x] + s, SameKeyPred(y, field))
  {
    var q := SameKeyPred(y, field);
    if s != [] && !InOrder(x, s[0], field, dir) {
      InsertKeepsTies(x, s[1..], field, dir, y);
      assert ([s[0]] + Insert(x, s[1..], field, dir))[1..] == Insert(x, s[1..], field, dir);
      assert ([x] + s[1..])[1..] == s[1..];
      assert ([x] + s)[1..] == s;
      TiesAreInOrder(x, s[0], y, field, dir);
    }
  }

  /** Two tasks with the same key as a third are in order either way. */
  lemma TiesAreInOrder(a: Task, b: Task, y: Task, field: SortField, dir: SortDirection)
    ensures SameKey(a, y, field) && SameKey(b, y, field) ==> InOrder(a, b, field, dir)
  {
    if SameKey(a, y, field) && SameKey(b, y, field) {
      SameKeyMeaning(a, y, field);
      SameKeyMeaning(b, y, field);
      SameKeyMeaning(a, b, field);
      CmpAntisymmetric(a, b, field, dir);
    }
  }

  /** Stability: among the tasks with the same key as `y`, the sorted list
      keeps the order of the input. */
  lemma {:induction false} StableSortKeepsTies(s: seq<Task>, field: SortField, dir: SortDirection, y: Task)
    ensures Keep(StableSort(s, field, dir), SameKeyPred(y, field)) == Keep(s, SameKeyPred(y, field))
  {
    if s != [] {
      StableSortKeepsTies(s[1..], field, dir, y);
      InsertKeepsTies(s[0], StableSort(s[1..], field, dir), field, dir, y);
      assert ([s[0]] + StableSort(s[1..], field, dir))[1..] == StableSort(s[1..], field, dir);
    }
  }

  /** The sort stage: no field leaves the filtered order alone. */
  function SortTasks(s: seq<Task>, field: SortField, dir: SortDirection): (r: seq<Task>)
    ensures field == NoSort ==> r == s
    ensures Sorted(r, field, dir)
    ensures multiset(r) == multiset(s)
  {
    if field == NoSort then s else StableSort(s, field, dir)
  }

  /** Tied tasks keep their filtered order in both directions, so `desc`
      is not the reverse of `asc` on a list with ties. */
  lemma TiesKeepOrderBothWays(a: Task, b: Task)
    requires a.priority == b.priority
    ensures SortTasks([a, b], PriorityField, Asc) == [a, b]
    ensures SortTasks([a, b], PriorityField, Desc) == [a, b]
  {
    assert [a, b][1..] == [b] && [b][1..] == [];
    assert StableSort([b], PriorityField, Asc) == [b];
    assert StableSort([b], PriorityField, Desc) == [b];
  }

  /** The hook's `filteredTasks`: filtered, then sorted. */
  function VisibleTasks(tasks: seq<Task>, f: TaskFilters, field: SortField, dir: SortDirection): (r: seq<Task>)
    ensures Sorted(r, field, dir)
    ensures multiset(r) == multiset(FilterTasks(tasks, f))
    ensures field == NoSort ==> r == FilterTasks(tasks, f)
  {
    SortTasks(FilterTasks(tasks, f), field, dir)
  }

  /** Every task of the derived list comes from the collection and passes
      the filters, and every task that passes is in it. */
  lemma VisibleMembership(tasks: seq<Task>, f: TaskFilters, field: SortField, dir: SortDirection)
    ensures forall t :: t in VisibleTasks(tasks, f, field, dir) <==> t in tasks && Matches(t, f)
  {
    var fs := FilterTasks(tasks, f);
    var vs := VisibleTasks(tasks, f, field, dir);
    FilterMembership(tasks, f);
    forall t ensures t in vs <==> t in fs {
      assert t in vs <==> t in multiset(vs);
      assert t in fs <==> t in multiset(fs);
    }
    forall t | t in tasks && Matches(t, f) ensures t in fs {
      var i :| 0 <= i < |tasks| && tasks[i] == t;
    }
  }

  // ---------------------------------------------------------------------
  // The pagination stage
  // ---------------------------------------------------------------------

  function Min(a: int, b: int): int {
    if a <= b then a else b
  }

  /** How `slice` resolves an index: negative counts from the end, and the
      result is clamped to `[0, len]`. */
  function RelativeIndex(k: int, len: nat): (r: nat)
    ensures r <= len
    ensures 0 <= k ==> r == Min(k, len)
    ensures k < 0 ==> r == if len + k < 0 then 0 else len + k
  {
    if k < 0 then (if len + k < 0 then 0 else len + k)
    else if k > len then len
    else k
  }

  /** `Array.prototype.slice(start, end)` for integer arguments. */
  function Slice<T>(s: seq<T>, start: int, end: int): (r: seq<T>)
    ensures |r| <= |s|
    ensures 0 <= start <= end <= |s| ==> r == s[start..end]
    ensures forall i :: 0 <= i < |r| ==> r[i] in s
  {
    var from := RelativeIndex(start, |s|);
    var to := RelativeIndex(end, |s|);
    if from < to then s[from..to] else []
  }

  /** `paginatedTasks`: the slice from `(page - 1) * size` of length `size`. */
  function PageSlice(s: seq<Task>, page: int, size: int): (r: seq<Task>)
    requires size > 0
    ensures |r| <= size
    ensures page >= 1 ==> r == s[Min((page - 1) * size, |s|)..Min((page - 1) * size + size, |s|)]
    ensures page == 0 ==> r == []
  {
    PageStart(page, size);
    SliceFrom(s, (page - 1) * size, size)
  }

  /** `slice(start, start + size)`. */
  function SliceFrom(s: seq<Task>, start: int, size: int): (r: seq<Task>)
    requires size > 0
    ensures |r| <= size
    ensures start >= 0 ==> r == s[Min(start, |s|)..Min(start + size, |s|)]
    ensures start + size == 0 ==> r == []
  {
    SliceBounds(s, start, start + size);
    Slice(s, start, start + size)
  }

  lemma PageStart(page: int, size: int)
    requires size > 0
    ensures page >= 1 ==> (page - 1) * size >= 0
    ensures page == 0 ==> (page - 1) * size + size == 0
  {
    if page >= 1 {
      MulMonotone(0, page - 1, size);
    }
  }

  /** A slice is no longer than its index range, and one with non-negative
      bounds is the clipped sub-sequence. */
  lemma SliceBounds<T>(s: seq<T>, start: int, end: int)
    requires start <= end
    ensures |Slice(s, start, end)| <= end - start
    ensures 0 <= start ==> Slice(s, start, end) == s[Min(start, |s|)..Min(end, |s|)]
    ensures end == 0 ==> Slice(s, start, end) == []
  {
  }

  /** `Math.ceil(n / size)`. */
  function TotalPages(n: nat, size: int): (r: nat)
    requires size > 0
    ensures r == 0 <==> n == 0
    ensures n <= r * size
    ensures r > 0 ==> (r - 1) * size < n
  {
    var r := (n + size - 1) / size;
    var rem := (n + size - 1) % size;
    assert n + size - 1 == r * size + rem && 0 <= rem < size;
    assert (r - 1) * size == r * size - size;
    r
  }

  /** Pages 1 to `k`, one after the other. */
  function PagesUpTo(s: seq<Task>, size: int, k: nat): seq<Task>
    requires size > 0
  {
    if k == 0 then [] else PagesUpTo(s, size, k - 1) + PageSlice(s, k, size)
  }

  lemma {:induction false} PagesUpToPrefix(s: seq<Task>, size: int, k: nat)
    requires size > 0
    ensures PagesUpTo(s, size, k) == s[..Min(k * size, |s|)]
  {
    if k > 0 {
      PagesUpToPrefix(s, size, k - 1);
      NextPage(s, size, k);
    }
  }

  /** Page `k` continues the prefix the pages before it cover. */
  lemma NextPage(s: seq<Task>, size: int, k: nat)
    requires size > 0 && k > 0
    ensures s[..Min((k - 1) * size, |s|)] + PageSlice(s, k, size) == s[..Min(k * size, |s|)]
  {
    var lo := (k - 1) * size;
    assert lo + size == k * size && 0 <= lo;
    var a, b := Min(lo, |s|), Min(lo + size, |s|);
    assert PageSlice(s, k, size) == s[a..b];
    assert s[..a] + s[a..b] == s[..b];
  }

  /** The pages partition the list: pages 1 to `TotalPages` concatenated give
      it back exactly. */
  lemma PagesPartition(s: seq<Task>, size: int)
    requires size > 0
    ensures PagesUpTo(s, size, TotalPages(|s|, size)) == s
  {
    PagesUpToPrefix(s, size, TotalPages(|s|, size));
  }

  /** Pages past the last are empty; every page from 1 to the last is not,
      and all but the last are full. */
  lemma PageSizes(s: seq<Task>, page: int, size: int)
    requires size > 0
    ensures page > TotalPages(|s|, size) ==> PageSlice(s, page, size) == []
    ensures 1 <= page <= TotalPages(|s|, size) ==> PageSlice(s, page, size) != []
    ensures 1 <= page < TotalPages(|s|, size) ==> |PageSlice(s, page, size)| == size
  {
    var n := TotalPages(|s|, size);
    if page > n {
      MulMonotone(n, page - 1, size);
    }
    if 1 <= page <= n {
      MulMonotone(page - 1, n - 1, size);
    }
    if 1 <= page < n {
      MulMonotone(page, n - 1, size);
      assert (page - 1) * size + size == page * size;
    }
  }

  lemma MulMonotone(a: int, b: int, c: int)
    requires a <= b && c >= 0
    ensures a * c <= b * c
  {
    assert b * c - a * c == (b - a) * c;
  }

  /** `setCurrentPage` does not check its argument: a negative page reads
      from the end, as `slice` does with a negative start. */
  lemma NegativePageWraps(s: seq<Task>)
    requires |s| == 25
    ensures PageSlice(s, -1, 10) == s[5..15]
  {
  }

  // ---------------------------------------------------------------------
  // Status counts
  // ---------------------------------------------------------------------

  datatype StatusCounts = StatusCounts(total: nat, backlog: nat, inProgress: nat, blocked: nat, done: nat)

  lemma {:induction false} StatusesPartition(tasks: seq<Task>)
    ensures |Keep(tasks, StatusPred("Backlog"))| + |Keep(tasks, StatusPred("In Progress"))|
      + |Keep(tasks, StatusPred("Blocked"))| + |Keep(tasks, StatusPred("Done"))| == |tasks|
  {
    if tasks != [] {
      StatusesPartition(tasks[1..]);
      ExactlyOneStatus(tasks[0]);
    }
  }

  lemma ExactlyOneStatus(t: Task)
    ensures (if StatusPred("Backlog")(t) then 1 else 0) + (if StatusPred("In Progress")(t) then 1 else 0)
      + (if StatusPred("Blocked")(t) then 1 else 0) + (if StatusPred("Done")(t) then 1 else 0) == 1
  {
    match t.status
    case Backlog =>
      assert StatusName(t.status) == "Backlog";
    case InProgress =>
      assert StatusName(t.status) == "In Progress";
    case Blocked =>
      assert StatusName(t.status) == "Blocked";
    case Done =>
      assert StatusName(t.status) == "Done";
  }

  /** How many tasks have status `s`, counted one task at a time. */
  function NumWithStatus(tasks: seq<Task>, s: Status): nat {
    if tasks == [] then 0
    else (if tasks[0].status == s then 1 else 0) + NumWithStatus(tasks[1..], s)
  }

  /** Filtering by a status label keeps exactly the tasks with that status. */
  lemma {:induction false} StatusFilterCount(tasks: seq<Task>, s: Status)
    ensures |Keep(tasks, StatusPred(StatusName(s)))| == NumWithStatus(tasks, s)
  {
    if tasks != [] {
      StatusFilterCount(tasks[1..], s);
      StatusLabelMatches(tasks[0], s);
      KeepCons(tasks[0], tasks[1..], StatusPred(StatusName(s)));
      assert tasks == [tasks[0]] + tasks[1..];
    }
  }

  lemma StatusLabelMatches(t: Task, s: Status)
    ensures StatusPred(StatusName(s))(t) <==> t.status == s
  {
    NamesAreDistinct();
  }

  /** The four labels the counts filter by count the four statuses. */
  lemma LabelCounts(tasks: seq<Task>)
    ensures |Keep(tasks, StatusPred("Backlog"))| == NumWithStatus(tasks, Backlog)
    ensures |Keep(tasks, StatusPred("In Progress"))| == NumWithStatus(tasks, InProgress)
    ensures |Keep(tasks, StatusPred("Blocked"))| == NumWithStatus(tasks, Blocked)
    ensures |Keep(tasks, StatusPred("Done"))| == NumWithStatus(tasks, Done)
  {
    assert StatusName(Backlog) == "Backlog";
    StatusFilterCount(tasks, Backlog);
    assert StatusName(InProgress) == "In Progress";
    StatusFilterCount(tasks, InProgress);
    assert StatusName(Blocked) == "Blocked";
    StatusFilterCount(tasks, Blocked);
    assert StatusName(Done) == "Done";
    StatusFilterCount(tasks, Done);
  }

  /** `statusCounts`: over the whole collection, each status counting its
      own tasks; the four add up to the total. */
  function CountByStatus(tasks: seq<Task>): (c: StatusCounts)
    ensures c.total == |tasks|
    ensures c.backlog == NumWithStatus(tasks, Backlog)
    ensures c.inProgress == NumWithStatus(tasks, InProgress)
    ensures c.blocked == NumWithStatus(tasks, Blocked)
    ensures c.done == NumWithStatus(tasks, Done)
    ensures c.backlog + c.inProgress + c.blocked + c.done == c.total
  {
    StatusesPartition(tasks);
    LabelCounts(tasks);
    StatusCounts(
      |tasks|,
      |Keep(tasks, StatusPred("Backlog"))|,
      |Keep(tasks, StatusPred("In Progress"))|,
      |Keep(tasks, StatusPred("Blocked"))|,
      |Keep(tasks, StatusPred("Done"))|)
  }

  // ---------------------------------------------------------------------
  // Sort configuration
  // ---------------------------------------------------------------------

  datatype SortState = SortState(field: SortField, direction: SortDirection)

  /** `toggleSort(requested)`: the active field flips direction, any other
      field becomes active ascending. */
  function Toggled(s: SortState, requested: SortField): (r: SortState)
    ensures r.field == requested
    ensures requested == s.field ==> r.direction != s.direction
    ensures requested != s.field ==> r.direction == Asc
  {
    if s.field == requested then
      s.(direction := if s.direction == Asc then Desc else Asc)
    else
      SortState(requested, Asc)
  }

  /** Toggling the active field twice restores the direction, and toggling
      never returns to "no sort" once a field is asked for. */
  lemma ToggleCycle(s: SortState, requested: SortField)
    ensures Toggled(Toggled(s, requested), requested).field == requested
    ensures s.field == requested ==> Toggled(Toggled(s, requested), requested) == s
    ensures requested != NoSort ==> Toggled(s, requested).field != NoSort
  {
  }
}
