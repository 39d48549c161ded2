/**
 * The edit-task dialog (src/components/task/EditTaskDialog.tsx): the form
 * filled from the task being edited, the field handlers, and the patch its
 * submit handler sends to the task store's `updateTask`.
 */
module EditTaskDialog {
  import opened Wrappers
  import opened Types
  import opened Text
  import opened SetClause
  import opened Database
  import opened Backend
  import opened TaskStore

  /** The dialog's `formData`: every field as the form controls hold it. */
  datatype EditForm = EditForm(
    title: string,
    description: string,
    projectId: string,
    priority: Priority,
    dueDate: string,
    status: Status)

  const InitialEditForm := EditForm("", "", "", 0, "", Pending)

  /**
   * The form loaded from a task (lines 26-36). `dateInput` stands for
   * `new Date(d).toISOString().split('T')[0]`.
   */
  function FormFromTask(t: Task, dateInput: string -> string): (f: EditForm)
    ensures f.title == t.title && f.priority == t.priority && f.status == t.status
    ensures f.description == if t.description.Some? then t.description.value else ""
    ensures f.projectId == "" <==> !IdTruthy(t.projectId)
    ensures f.dueDate == if TextTruthy(t.dueDate) then dateInput(t.dueDate.value) else ""
  {
    EditForm(
      t.title,
      if TextTruthy(t.description) then t.description.value else "",
      if IdTruthy(t.projectId) then IntToString(t.projectId.value) else "",
      t.priority,
      if TextTruthy(t.dueDate) then dateInput(t.dueDate.value) else "",
      t.status)
  }

  /** The project field of a loaded form reads back, through `parseInt`, as the task's project. */
  lemma FormProjectIdReadsBack(t: Task, dateInput: string -> string)
    requires IdTruthy(t.projectId)
    ensures ParseInt(FormFromTask(t, dateInput).projectId) == t.projectId
  {
    ParseIntToString(t.projectId.value);
  }

  /** `cond && { completedAt: v }` spread into the patch: the entry only when the condition holds. */
  function CompletionEntries(formStatus: Status, taskStatus: Status, now: string): seq<TaskEntry> {
    if formStatus == Completed && taskStatus != Completed then [CompletedAtEntry(Some(now))]
    else if formStatus != Completed && taskStatus == Completed then [CompletedAtEntry(None)]
    else []
  }

  /** The values the submit handler reads off the form (lines 43-48). */
  datatype Sent = Sent(
    title: string,
    description: Option<string>,
    projectId: Option<int>,
    priority: Priority,
    dueDate: Option<string>,
    status: Status)

  /**
   * The title and description trimmed, an empty description as
   * `undefined`, the project id parsed unless empty, the due date as
   * `isoDate` gives it unless empty. An unparsable project id yields NaN,
   * which is bound as NULL.
   */
  function FormValues(form: EditForm, isoDate: string -> string): Sent {
    var description := Trim(form.description);
    Sent(
      Trim(form.title),
      if description == "" then None else Some(description),
      if form.projectId == "" then None else ParseInt(form.projectId),
      form.priority,
      if form.dueDate == "" then None else Some(isoDate(form.dueDate)),
      form.status)
  }

  /** The seven properties every patch has, in the order the object literal lists them. */
  function FormEntries(v: Sent, now: string): (p: TaskPatch)
    ensures |p| == 7
  {
    [ TitleEntry(v.title),
      DescriptionEntry(v.description),
      ProjectIdEntry(v.projectId),
      PriorityEntry(v.priority),
      DueDateEntry(v.dueDate),
      StatusEntry(v.status),
      UpdatedAtEntry(now) ]
  }

  /** The whole patch: the seven properties, then the spread `completedAt`, if any. */
  function PatchOf(v: Sent, taskStatus: Status, now: string): TaskPatch {
    FormEntries(v, now) + CompletionEntries(v.status, taskStatus, now)
  }

  /**
   * The patch `handleSubmit` sends (lines 42-56), or None when it returns
   * early. `now` is `new Date().toISOString()` and `isoDate` stands for
   * `new Date(d).toISOString()`.
   */
  function SubmitPatch(form: EditForm, task: Option<Task>, now: string, isoDate: string -> string): Option<TaskPatch> {
    if Trim(form.title) == "" || task.None? then None
    else Some(PatchOf(FormValues(form, isoDate), task.value.status, now))
  }

  /** A title of white space only, or no task, sends no update; otherwise the patch is built from the task's status. */
  lemma SubmitGuard(form: EditForm, task: Option<Task>, now: string, isoDate: string -> string)
    ensures SubmitPatch(form, task, now, isoDate).None? <==> AllSpace(form.title) || task.None?
    ensures SubmitPatch(form, task, now, isoDate).Some? ==>
      SubmitPatch(form, task, now, isoDate).value == PatchOf(FormValues(form, isoDate), task.value.status, now)
  {
    TrimEmptyIffAllSpace(form.title);
  }

  /** What each key finds among the seven fixed properties. */
  lemma FormEntriesLookup(v: Sent, now: string, key: Key)
    ensures Lookup(FormEntries(v, now), key) ==
      if key == TitleKey then Some(TitleEntry(v.title))
      else if key == DescriptionKey then Some(DescriptionEntry(v.description))
      else if key == ProjectIdKey then Some(ProjectIdEntry(v.projectId))
      else if key == PriorityKey then Some(PriorityEntry(v.priority))
      else if key == DueDateKey then Some(DueDateEntry(v.dueDate))
      else if key == StatusKey then Some(StatusEntry(v.status))
      else if key == UpdatedAtKey then Some(UpdatedAtEntry(now))
      else None
  {
    var p := FormEntries(v, now);
    if key == TitleKey {
      LookupLast(p, key, 0);
    } else if key == DescriptionKey {
      LookupLast(p, key, 1);
    } else if key == ProjectIdKey {
      LookupLast(p, key, 2);
    } else if key == PriorityKey {
      LookupLast(p, key, 3);
    } else if key == DueDateKey {
      LookupLast(p, key, 4);
    } else if key == StatusKey {
      LookupLast(p, key, 5);
    } else if key == UpdatedAtKey {
      LookupLast(p, key, 6);
    } else {
      LookupSpec(p, key);
    }
  }

  /** What each key other than `completedAt` finds in a patch. */
  lemma PatchLookup(v: Sent, taskStatus: Status, now: string, key: Key)
    requires key != CompletedAtKey
    ensures Lookup(PatchOf(v, taskStatus, now), key) ==
      if key == TitleKey then Some(TitleEntry(v.title))
      else if key == DescriptionKey then Some(DescriptionEntry(v.description))
      else if key == ProjectIdKey then Some(ProjectIdEntry(v.projectId))
      else if key == PriorityKey then Some(PriorityEntry(v.priority))
      else if key == DueDateKey then Some(DueDateEntry(v.dueDate))
      else if key == StatusKey then Some(StatusEntry(v.status))
      else if key == UpdatedAtKey then Some(UpdatedAtEntry(now))
      else None
  {
    LookupAppendOther(FormEntries(v, now), CompletionEntries(v.status, taskStatus, now), key);
    FormEntriesLookup(v, now, key);
  }

  /** Every patch carries the form's title, description and project. */
  lemma PatchTextFields(v: Sent, taskStatus: Status, now: string)
    ensures Lookup(PatchOf(v, taskStatus, now), TitleKey) == Some(TitleEntry(v.title))
    ensures Lookup(PatchOf(v, taskStatus, now), DescriptionKey) == Some(DescriptionEntry(v.description))
    ensures Lookup(PatchOf(v, taskStatus, now), ProjectIdKey) == Some(ProjectIdEntry(v.projectId))
  {
    PatchLookup(v, taskStatus, now, TitleKey);
    PatchLookup(v, taskStatus, now, DescriptionKey);
    PatchLookup(v, taskStatus, now, ProjectIdKey);
  }

  /** Every patch carries the form's priority, due date and status, and the submit time as `updatedAt`. */
  lemma PatchFields(v: Sent, taskStatus: Status, now: string)
    ensures Lookup(PatchOf(v, taskStatus, now), PriorityKey) == Some(PriorityEntry(v.priority))
    ensures Lookup(PatchOf(v, taskStatus, now), DueDateKey) == Some(DueDateEntry(v.dueDate))
    ensures Lookup(PatchOf(v, taskStatus, now), StatusKey) == Some(StatusEntry(v.status))
    ensures Lookup(PatchOf(v, taskStatus, now), UpdatedAtKey) == Some(UpdatedAtEntry(now))
  {
    PatchLookup(v, taskStatus, now, PriorityKey);
    PatchLookup(v, taskStatus, now, DueDateKey);
    PatchLookup(v, taskStatus, now, StatusKey);
    PatchLookup(v, taskStatus, now, UpdatedAtKey);
  }

  /** No patch names `id`, `createdAt` or `parentTaskId`. */
  lemma PatchOmits(v: Sent, taskStatus: Status, now: string)
    ensures Lookup(PatchOf(v, taskStatus, now), IdKey).None?
    ensures Lookup(PatchOf(v, taskStatus, now), CreatedAtKey).None?
    ensures Lookup(PatchOf(v, taskStatus, now), ParentTaskIdKey).None?
  {
    PatchLookup(v, taskStatus, now, IdKey);
    PatchLookup(v, taskStatus, now, CreatedAtKey);
    PatchLookup(v, taskStatus, now, ParentTaskIdKey);
  }

  /**
   * The `completedAt` entry: the submit time exactly on a change to
   * 'completed', an explicit `undefined` exactly on a change away from it,
   * and no entry when completion does not change.
   */
  lemma PatchCompletedAtEntry(v: Sent, taskStatus: Status, now: string)
    ensures Lookup(PatchOf(v, taskStatus, now), CompletedAtKey) == Some(CompletedAtEntry(Some(now))) <==>
      v.status == Completed && taskStatus != Completed
    ensures Lookup(PatchOf(v, taskStatus, now), CompletedAtKey) == Some(CompletedAtEntry(None)) <==>
      v.status != Completed && taskStatus == Completed
    ensures Lookup(PatchOf(v, taskStatus, now), CompletedAtKey).None? <==>
      (v.status == Completed <==> taskStatus == Completed)
  {
    var p := PatchOf(v, taskStatus, now);
    LookupSpec(FormEntries(v, now), CompletedAtKey);
    if |p| == 8 {
      LookupLast(p, CompletedAtKey, 7);
    } else {
      assert p == FormEntries(v, now);
    }
  }

  /**
   * What the database then does with `completed_at` (with `dbNow` the
   * statement's CURRENT_TIMESTAMP): a change to 'completed' stores the
   * dialog's time; saving a task that was and stays completed re-stamps it
   * with the statement's time, because the patch brings no `completedAt`;
   * any other status clears it.
   */
  lemma SubmitThenUpdateCompletedAt(form: EditForm, task: Task, now: string, dbNow: string, isoDate: string -> string)
    requires now != ""
    ensures UpdatedRow(task, PatchOf(FormValues(form, isoDate), task.status, now), dbNow).completedAt ==
      if form.status != Completed then None
      else if task.status != Completed then Some(now)
      else Some(dbNow)
  {
    var v := FormValues(form, isoDate);
    var p := PatchOf(v, task.status, now);
    PatchFields(v, task.status, now);
    PatchCompletedAtEntry(v, task.status, now);
    assert PatchStatus(p) == Some(form.status);
    UpdateCompletedAt(task, p, dbNow);
  }

  /** The `updatedAt` the dialog sends never survives: the row's `updated_at` is the statement's time. */
  lemma SubmitThenUpdateStampsTime(form: EditForm, task: Task, now: string, dbNow: string, isoDate: string -> string)
    ensures UpdatedRow(task, PatchOf(FormValues(form, isoDate), task.status, now), dbNow).updatedAt == dbNow
  {
    UpdateKeepsIdentityAndStampsTime(task, PatchOf(FormValues(form, isoDate), task.status, now), dbNow);
  }

  /**
   * Loading a task and submitting the form untouched sends back the task's
   * own status, priority and project (a project id 0 reads as none), and no
   * `completedAt`.
   */
  lemma LoadThenSubmitUnchanged(task: Task, now: string, dateInput: string -> string, isoDate: string -> string)
    ensures var p := PatchOf(FormValues(FormFromTask(task, dateInput), isoDate), task.status, now);
      && Lookup(p, StatusKey) == Some(StatusEntry(task.status))
      && Lookup(p, PriorityKey) == Some(PriorityEntry(task.priority))
      && Lookup(p, ProjectIdKey) == Some(ProjectIdEntry(IdOrNull(task.projectId)))
      && Lookup(p, CompletedAtKey).None?
  {
    var f := FormFromTask(task, dateInput);
    var v := FormValues(f, isoDate);
    PatchFields(v, task.status, now);
    PatchTextFields(v, task.status, now);
    PatchCompletedAtEntry(v, task.status, now);
    if IdTruthy(task.projectId) {
      FormProjectIdReadsBack(task, dateInput);
    }
  }

  /** The dialog's form state and its handlers. */
  class EditTaskDialog {
    var formData: EditForm

    constructor()
      ensures formData == InitialEditForm
    {
      formData := InitialEditForm;
    }

    /** The effect that runs when the task changes: a task fills the form, none leaves it. */
    method LoadTask(task: Option<Task>, dateInput: string -> string)
      modifies this
      ensures formData == if task.Some? then FormFromTask(task.value, dateInput) else old(formData)
    {
      if task.Some? {
        formData := FormFromTask(task.value, dateInput);
      }
    }

    method SetTitle(title: string)
      modifies this
      ensures formData == old(formData).(title := title)
    {
      formData := formData.(title := title);
    }

    method SetDescription(description: string)
      modifies this
      ensures formData == old(formData).(description := description)
    {
      formData := formData.(description := description);
    }

    method SetStatus(status: Status)
      modifies this
      ensures formData == old(formData).(status := status)
    {
      formData := formData.(status := status);
    }

    /** The project select: "" for "No Project", otherwise a project's id as text. */
    method SetProjectId(projectId: string)
      modifies this
      ensures formData == old(formData).(projectId := projectId)
    {
      formData := formData.(projectId := projectId);
    }

    method SetPriority(priority: Priority)
      modifies this
      ensures formData == old(formData).(priority := priority)
    {
      formData := formData.(priority := priority);
    }

    method SetDueDate(dueDate: string)
      modifies this
      ensures formData == old(formData).(dueDate := dueDate)
    {
      formData := formData.(dueDate := dueDate);
    }

    /**
     * `handleSubmit`: sends the patch through the store, or nothing. The
     * dialog's clock reads `now`; the database's reads `dbNow`. Returns the
     * patch sent and the store's answer.
     */
    method HandleSubmit(store: TaskStore, api: Backend, task: Option<Task>, now: string, dbNow: string,
                        isoDate: string -> string)
      returns (sent: Option<TaskPatch>, reply: Option<Task>)
      requires api.Valid()
      modifies store, api.db
      ensures api.Valid()
      ensures sent == SubmitPatch(formData, task, now, isoDate)
      ensures sent.None? ==> reply.None? && unchanged(store) && unchanged(api.db)
      ensures sent.Some? ==>
        && task.Some?
        && api.db.State() == (if api.reachable then AfterUpdateTask(old(api.db.State()), task.value.id, sent.value, dbNow)
                              else old(api.db.State()))
        && (reply.Some? <==> api.reachable && UpdateTaskSucceeds(old(api.db.State()), task.value.id, sent.value, dbNow))
      ensures reply.Some? ==>
        && sent.Some?
        && reply.value == UpdatedRow(FindTask(old(api.db.tasks), task.value.id).value, sent.value, dbNow)
        && store.tasks == Rows.ReplaceTask(old(store.tasks), task.value.id, reply.value)
        && store.selectedTask == SelectedAfterUpdate(old(store.selectedTask), task.value.id, reply.value)
      ensures reply.None? ==> store.tasks == old(store.tasks) && store.selectedTask == old(store.selectedTask)
      ensures store.filter == old(store.filter)
    {
      sent := SubmitPatch(formData, task, now, isoDate);
      reply := None;
      if sent.Some? {
        reply := store.UpdateTask(api, task.value.id, sent.value, dbNow);
      }
    }
  }
}
