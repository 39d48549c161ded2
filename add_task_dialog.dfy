/**
 * The new-task dialog (src/components/task/AddTaskDialog.tsx): its form,
 * the payload its submit handler passes to the task store's `createTask`,
 * and the reset that follows.
 */
module AddTaskDialog {
  import opened Wrappers
  import opened Types
  import opened Text
  import opened Database
  import opened Backend
  import opened TaskStore

  /** The dialog's `formData`; the project is a number or null. */
  datatype AddForm = AddForm(
    title: string,
    description: string,
    projectId: Option<int>,
    priority: Priority,
    dueDate: string)

  /** The form as the dialog opens and as it is reset: empty texts, no project, priority 1 (Medium). */
  const InitialAddForm := AddForm("", "", None, 1, "")

  /**
   * The `newTask` payload (lines 28-35), or None when the title is empty
   * after trimming. Falsy values become `undefined`; the status is always
   * 'pending' and the payload names no parent.
   */
  function NewTaskPayload(form: AddForm): Option<NewTask> {
    if Trim(form.title) == "" then None
    else
      var description := Trim(form.description);
      Some(NewTask(
        Trim(form.title),
        if description == "" then None else Some(description),
        IdOrNull(form.projectId),
        form.priority,
        Pending,
        if form.dueDate == "" then None else Some(form.dueDate),
        None))
  }

  /** A title of white space only creates nothing. */
  lemma PayloadGuard(form: AddForm)
    ensures NewTaskPayload(form).None? <==> AllSpace(form.title)
  {
    TrimEmptyIffAllSpace(form.title);
  }

  /**
   * A payload carries the trimmed title, a trimmed description or none,
   * the project unless it is null or 0, the chosen priority, status
   * 'pending', the due date unless empty, and no parent.
   */
  lemma PayloadFields(form: AddForm)
    requires !AllSpace(form.title)
    ensures NewTaskPayload(form).Some?
    ensures var t := NewTaskPayload(form).value;
      && t.title == Trim(form.title)
      && (t.description.None? <==> AllSpace(form.description))
      && (t.description.Some? ==> t.description.value == Trim(form.description))
      && t.projectId == (if IdTruthy(form.projectId) then form.projectId else None)
      && t.priority == form.priority
      && t.status == Pending
      && (t.dueDate.None? <==> form.dueDate == "")
      && (t.dueDate.Some? ==> t.dueDate.value == form.dueDate)
      && t.parentTaskId.None?
  {
    PayloadGuard(form);
    TrimEmptyIffAllSpace(form.description);
  }

  /**
   * The row the database then stores: the form's trimmed title and
   * description, project, priority and due date, NULL for what the payload
   * leaves out, status 'pending' and no completion time.
   */
  lemma PayloadThenInsert(form: AddForm, id: int, now: string)
    requires !AllSpace(form.title)
    ensures NewTaskPayload(form).Some?
    ensures var row := InsertedTask(NewTaskPayload(form).value, id, now);
      && row.title == Trim(form.title)
      && row.status == Pending && row.completedAt.None? && row.parentTaskId.None?
      && row.projectId == (if IdTruthy(form.projectId) then form.projectId else None)
      && row.priority == form.priority
      && row.description == (if AllSpace(form.description) then None else Some(Trim(form.description)))
      && row.dueDate == (if form.dueDate == "" then None else Some(form.dueDate))
  {
    PayloadFields(form);
  }

  /** The project select's handler: "No Project" ('') is null, any other option is `Number` of its value. */
  function SelectedProject(value: string): Option<int> {
    if value == "" then None else ParseNumber(value)
  }

  /** Choosing a project's option selects exactly that project's id; "No Project" selects none. */
  lemma SelectProjectOption(id: int)
    ensures SelectedProject(IntToString(id)) == Some(id)
    ensures SelectedProject("") == None
  {
    ParseNumberOfIntText(id);
    assert IntToString(id) != "" by {
      if id >= 0 {
        assert |Digits(id)| > 0;
      }
    }
  }

  /** The dialog's form state and its handlers. */
  class AddTaskDialog {
    var formData: AddForm

    constructor()
      ensures formData == InitialAddForm
    {
      formData := InitialAddForm;
    }

    method SetTitle(title: string)
      modifies this
      ensures formData == old(formData).(title := title)
    {
      formData := formData.(title := title);
    }

    method SetDescription(description: string)
      modifies this
      ensures formData == old(formData).(description := description)
    {
      formData := formData.(description := description);
    }

    /** The project select, given the chosen option's value. */
    method SelectProject(value: string)
      modifies this
      ensures formData == old(formData).(projectId := SelectedProject(value))
    {
      formData := formData.(projectId := SelectedProject(value));
    }

    method SetPriority(priority: Priority)
      modifies this
      ensures formData == old(formData).(priority := priority)
    {
      formData := formData.(priority := priority);
    }

    method SetDueDate(dueDate: string)
      modifies this
      ensures formData == old(formData).(dueDate := dueDate)
    {
      formData := formData.(dueDate := dueDate);
    }

    /**
     * `handleSubmit`: with a title, passes the payload to the store and
     * resets the form whatever the store's outcome (the store absorbs
     * failures); without one, does nothing. Returns the payload sent and
     * the store's answer.
     */
    method HandleSubmit(store: TaskStore, api: Backend, now: string) returns (sent: Option<NewTask>, reply: Option<Task>)
      requires api.Valid()
      modifies this, store, api.db
      ensures api.Valid()
      ensures sent == NewTaskPayload(old(formData))
      ensures sent.None? ==> formData == old(formData) && reply.None? && unchanged(store) && unchanged(api.db)
      ensures sent.Some? ==>
        && formData == InitialAddForm
        && api.db.State() == (if api.reachable then AfterCreateTask(old(api.db.State()), sent.value, now)
                              else old(api.db.State()))
        && (reply.Some? <==> api.reachable && CreateTaskSucceeds(old(api.db.State()), sent.value, now))
      ensures reply.Some? ==>
        && sent.Some?
        && reply.value == InsertedTask(sent.value, old(api.db.lastTaskId) + 1, now)
        && store.tasks == [reply.value] + old(store.tasks)
      ensures reply.None? ==> store.tasks == old(store.tasks)
      ensures store.selectedTask == old(store.selectedTask) && store.filter == old(store.filter)
    {
      sent := NewTaskPayload(formData);
      reply := None;
      if sent.Some? {
        reply := store.CreateTask(api, sent.value, now);
        formData := InitialAddForm;
      }
    }
  }
}
