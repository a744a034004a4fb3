/** `TaskFormModal`: the form state (the fields as typed, with the tags as
    one comma-separated string, and the set of fields in error), its
    prefill on opening, its validation and the payload it hands to
    `onSave`. */
module TaskForm {
  import opened Text
  import opened TaskTypes
  import opened Seqs
  import opened Mutations

  datatype FormData = FormData(
    title: string,
    description: string,
    priority: Priority,
    status: Status,
    assignee: string,
    department: Department,
    dueDate: string,
    tags: string,
    attachmentsCount: int)

  /** The keys `validate` can put in the error map. */
  datatype FormField = TitleInput | AssigneeInput | DueDateInput

  /** The form of a new task. */
  const DefaultForm: FormData := FormData("", "", Medium, Backlog, "", Warehouse, "", "", 0)

  /** What the opening effect loads: the task's fields with its tags joined
      by `", "`, or the defaults when there is no task. */
  function Prefill(task: Option<Task>): (d: FormData)
    ensures task.None? ==>
      && d.title == [] && d.description == [] && d.assignee == []
      && d.dueDate == [] && d.tags == [] && d.attachmentsCount == 0
      && d.priority == Medium && d.status == Backlog && d.department == Warehouse
    ensures task.Some? ==>
      && d.title == task.value.title && d.description == task.value.description
      && d.priority == task.value.priority && d.status == task.value.status
      && d.assignee == task.value.assignee && d.department == task.value.department
      && d.dueDate == task.value.dueDate && d.attachmentsCount == task.value.attachmentsCount
      && d.tags == Join(task.value.tags, ", ")
  {
    match task
    case None => DefaultForm
    case Some(t) =>
      FormData(t.title, t.description, t.priority, t.status, t.assignee, t.department,
               t.dueDate, Join(t.tags, ", "), t.attachmentsCount)
  }

  /** The fields `validate` reports: a title or assignee that is blank after
      trimming, and an empty due date. */
  function ValidationErrors(d: FormData): (e: set<FormField>)
    ensures TitleInput in e <==> Trim(d.title) == []
    ensures AssigneeInput in e <==> Trim(d.assignee) == []
    ensures DueDateInput in e <==> d.dueDate == []
  {
    BlankIsEmptyTrim(d.title);
    BlankIsEmptyTrim(d.assignee);
    (if Blank(d.title) then {TitleInput} else {})
    + (if Blank(d.assignee) then {AssigneeInput} else {})
    + (if d.dueDate == [] then {DueDateInput} else {})
  }

  /** `.map(t => t.trim())`. */
  function TrimAll(parts: seq<string>): (r: seq<string>)
    ensures |r| == |parts|
    ensures forall i :: 0 <= i < |r| ==> r[i] == Trim(parts[i])
  {
    if parts == [] then [] else [Trim(parts[0])] + TrimAll(parts[1..])
  }

  function NonEmpty(): string -> bool {
    (s: string) => s != []
  }

  function NotBlank(): string -> bool {
    (s: string) => !AllWhitespace(s)
  }

  /** Dropping the pieces that trim to nothing after trimming is trimming
      the pieces that are not blank. */
  lemma {:induction false} TrimThenDrop(parts: seq<string>)
    ensures Keep(TrimAll(parts), NonEmpty()) == TrimAll(Keep(parts, NotBlank()))
  {
    if parts != [] {
      var x, rest := parts[0], parts[1..];
      TrimThenDrop(rest);
      assert parts == [x] + rest;
      assert TrimAll(parts) == [Trim(x)] + TrimAll(rest);
      KeepCons(Trim(x), TrimAll(rest), NonEmpty());
      KeepCons(x, rest, NotBlank());
      if AllWhitespace(x) {
        assert Trim(x) == [];
        assert Keep(parts, NotBlank()) == Keep(rest, NotBlank());
      } else {
        assert Trim(x) != [];
        assert Keep(parts, NotBlank()) == [x] + Keep(rest, NotBlank());
        TrimAllAppend([x], Keep(rest, NotBlank()));
        assert TrimAll([x]) == [Trim(x)];
      }
    }
  }

  /** The tag list of the payload: split on commas, trim each piece, drop
      the empty ones; the same as trimming the pieces that are not blank. */
  function ParseTags(s: string): (tags: seq<string>)
    ensures forall i :: 0 <= i < |tags| ==> tags[i] != [] && IsTrimmed(tags[i]) && ',' !in tags[i]
    ensures tags == TrimAll(Keep(Split(s, ','), NotBlank()))
  {
    var pieces := Split(s, ',');
    TrimKeepsOut(pieces, ',');
    TrimThenDrop(pieces);
    Keep(TrimAll(pieces), NonEmpty())
  }

  /** The tags keep the order of the pieces, every piece that is not blank
      gives one, and there are as many tags as such pieces. */
  lemma ParseTagsPieces(s: string)
    ensures IsSubsequence(ParseTags(s), TrimAll(Split(s, ',')))
    ensures forall i :: 0 <= i < |Split(s, ',')| && !AllWhitespace(Split(s, ',')[i]) ==> Trim(Split(s, ',')[i]) in ParseTags(s)
    ensures |ParseTags(s)| == |Keep(Split(s, ','), NotBlank())|
  {
    var pieces := Split(s, ',');
    var trimmed := TrimAll(pieces);
    assert ParseTags(s) == Keep(trimmed, NonEmpty());
    KeepSubsequence(trimmed, NonEmpty());
    forall i | 0 <= i < |pieces| && !AllWhitespace(pieces[i])
      ensures Trim(pieces[i]) in ParseTags(s)
    {
      assert trimmed[i] == Trim(pieces[i]) && NonEmpty()(trimmed[i]);
    }
  }

  /** Trimming adds no character, so a character absent from every piece
      stays absent. */
  lemma TrimKeepsOut(parts: seq<string>, c: char)
    requires forall i :: 0 <= i < |parts| ==> c !in parts[i]
    ensures forall i :: 0 <= i < |parts| ==> c !in TrimAll(parts)[i]
  {
    forall i | 0 <= i < |parts|
      ensures c !in TrimAll(parts)[i]
    {
      assert TrimAll(parts)[i] == Trim(parts[i]);
    }
  }

  /** Tags that are non-empty, trimmed and free of commas. */
  predicate CleanTags(tags: seq<string>) {
    forall i :: 0 <= i < |tags| ==> tags[i] != [] && IsTrimmed(tags[i]) && ',' !in tags[i]
  }

  lemma {:induction false} TrimAllAppend(a: seq<string>, b: seq<string>)
    ensures TrimAll(a + b) == TrimAll(a) + TrimAll(b)
  {
    if a == [] {
      assert a + b == b;
    } else {
      assert (a + b)[0] == a[0];
      assert (a + b)[1..] == a[1..] + b;
      TrimAllAppend(a[1..], b);
    }
  }

  /** The space `", "` leaves in front of a piece is trimmed away again. */
  lemma LeadingSpaceIgnored(b: string)
    ensures TrimAll(Split(" " + b, ',')) == TrimAll(Split(b, ','))
  {
    var rest := Split(b, ',');
    assert (" " + b)[1..] == b;
    assert Split(" " + b, ',') == [" " + rest[0]] + rest[1..];
    TrimLeadingSpace(rest[0]);
    TrimAllAppend([" " + rest[0]], rest[1..]);
    TrimAllAppend([rest[0]], rest[1..]);
    assert rest == [rest[0]] + rest[1..];
  }

  lemma {:induction false} SplitJoined(tags: seq<string>)
    requires |tags| >= 1 && CleanTags(tags)
    ensures TrimAll(Split(Join(tags, ", "), ',')) == tags
  {
    if |tags| == 1 {
      SplitNoSeparator(tags[0], ',');
      TrimOfTrimmed(tags[0]);
    } else {
      var rest := Join(tags[1..], ", ");
      assert Join(tags, ", ") == tags[0] + [','] + (" " + rest);
      SplitAfterSeparator(tags[0], " " + rest, ',');
      TrimAllAppend([tags[0]], Split(" " + rest, ','));
      TrimOfTrimmed(tags[0]);
      LeadingSpaceIgnored(rest);
      SplitJoined(tags[1..]);
      assert tags == [tags[0]] + tags[1..];
    }
  }

  /** Parsing the string the form prefills gives back the task's tags,
      provided they are non-empty, trimmed and comma-free. */
  lemma TagsRoundTrip(tags: seq<string>)
    requires CleanTags(tags)
    ensures ParseTags(Join(tags, ", ")) == tags
  {
    if tags == [] {
      assert Split([], ',') == [[]];
      assert TrimAll([[]]) == [[]];
    } else {
      SplitJoined(tags);
      KeepEverything(tags, NonEmpty());
    }
  }

  /** The data `handleSubmit` passes to `onSave`. */
  function Payload(d: FormData): (p: TaskData)
    ensures IsTrimmed(p.title) && IsTrimmed(p.description) && IsTrimmed(p.assignee)
    ensures p.priority == d.priority && p.status == d.status && p.department == d.department
    ensures p.dueDate == d.dueDate && p.attachmentsCount == d.attachmentsCount
    ensures p.title == Trim(d.title) && p.description == Trim(d.description) && p.assignee == Trim(d.assignee)
    ensures p.tags == ParseTags(d.tags) && CleanTags(p.tags)
  {
    TaskData(Trim(d.title), Trim(d.description), d.priority, d.status, Trim(d.assignee),
             d.dueDate, ParseTags(d.tags), d.department, d.attachmentsCount)
  }

  /** A form that passes validation yields a payload with a title, an
      assignee and a due date. */
  lemma ValidPayload(d: FormData)
    requires ValidationErrors(d) == {}
    ensures Payload(d).title != [] && Payload(d).assignee != [] && Payload(d).dueDate != []
  {
    assert TitleInput !in ValidationErrors(d);
    assert AssigneeInput !in ValidationErrors(d);
    assert DueDateInput !in ValidationErrors(d);
  }

  /** A task whose text is already trimmed and whose tags are clean. */
  predicate CleanTask(t: Task) {
    IsTrimmed(t.title) && IsTrimmed(t.description) && IsTrimmed(t.assignee) && CleanTags(t.tags)
  }

  /** Opening a clean task for editing and saving it untouched hands back
      exactly its data. */
  lemma EditWithoutChanges(t: Task)
    requires CleanTask(t)
    ensures Payload(Prefill(Some(t))) == DataOf(t)
  {
    TrimOfTrimmed(t.title);
    TrimOfTrimmed(t.description);
    TrimOfTrimmed(t.assignee);
    TagsRoundTrip(t.tags);
  }

  /** The form's state. */
  class TaskFormModal {
    var formData: FormData
    var errors: set<FormField>

    constructor()
      ensures formData == DefaultForm && errors == {}
    {
      formData := DefaultForm;
      errors := {};
    }

    /** The effect run when the modal opens or its task changes. */
    method Open(task: Option<Task>)
      modifies this
      ensures formData == Prefill(task) && errors == {}
    {
      formData := Prefill(task);
      errors := {};
    }

    /** `validate`: the error map is rebuilt one check at a time. */
    method Validate() returns (ok: bool)
      modifies this
      ensures errors == ValidationErrors(formData) && formData == old(formData)
      ensures ok <==> Trim(formData.title) != [] && Trim(formData.assignee) != [] && formData.dueDate != []
    {
      var newErrors: set<FormField> := {};
      if Blank(formData.title) {
        newErrors := newErrors + {TitleInput};
      }
      if Blank(formData.assignee) {
        newErrors := newErrors + {AssigneeInput};
      }
      if formData.dueDate == [] {
        newErrors := newErrors + {DueDateInput};
      }
      errors := newErrors;
      ok := newErrors == {};
      assert errors == ValidationErrors(formData);
    }

    /** `handleSubmit`: the payload for `onSave`, or nothing when validation
        fails. */
    method Submit() returns (saved: Option<TaskData>)
      modifies this
      ensures errors == ValidationErrors(formData) && formData == old(formData)
      ensures saved.Some? <==> errors == {}
      ensures saved.Some? ==> saved.value == Payload(formData)
    {
      var ok := Validate();
      if !ok {
        return None;
      }
      saved := Some(Payload(formData));
    }
  }
}
