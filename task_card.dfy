/**
 * The logic of a task card (src/components/task/TaskCard.tsx): the
 * completion toggle's patch, the selection toggle, the drop handler, the
 * overdue rule and the priority labels. The state changes themselves are
 * the task store's `updateTask` and `setSelectedTask`.
 */
module TaskCard {
  import opened Wrappers
  import opened Types
  import opened Text
  import opened SetClause

  /** `newStatus`: a completed task goes back to pending, any other becomes completed. */
  function ToggledStatus(s: Status): (r: Status)
    ensures r == Pending <==> s == Completed
    ensures r == Completed <==> s != Completed
  {
    if s == Completed then Pending else Completed
  }

  /** Two toggles give back the status exactly when it was not 'in_progress', which the first toggle completes. */
  lemma ToggleTwice(s: Status)
    ensures ToggledStatus(ToggledStatus(s)) == s <==> s != InProgress
    ensures ToggledStatus(ToggledStatus(s)) == if s == Completed then Completed else Pending
  {
  }

  /** The patch `handleToggleComplete` sends: the new status and nothing else. */
  function TogglePatch(task: Task): (p: TaskPatch)
    ensures |p| == 1 && Lookup(p, StatusKey) == Some(StatusEntry(ToggledStatus(task.status)))
  {
    [StatusEntry(ToggledStatus(task.status))]
  }

  /**
   * The toggle composed with the database's update: the row gets the new
   * status, a completion time of the statement's time when it becomes
   * completed and none when it goes back to pending, a fresh `updated_at`,
   * and every other column as it was.
   */
  lemma ToggleThenUpdate(task: Task, now: string)
    ensures var r := UpdatedRow(task, TogglePatch(task), now);
      && r.status == ToggledStatus(task.status)
      && r.completedAt == (if task.status == Completed then None else Some(now))
      && r.updatedAt == now
      && r.id == task.id && r.createdAt == task.createdAt
  {
    var p := TogglePatch(task);
    var r := UpdatedRow(task, p, now);
    assert PatchStatus(p) == Some(ToggledStatus(task.status));
    LookupSpec(p, CompletedAtKey);
    assert !CompletedAtTruthy(p);
    UpdateCompletedAt(task, p, now);
    UpdateWritesPatchedColumns(task, p, now, StatusColumn);
    assert TextCell(StatusText(r.status)) == TextCell(StatusText(ToggledStatus(task.status)));
    UpdateKeepsIdentityAndStampsTime(task, p, now);
  }

  /** A column the toggle does not name keeps its value. */
  lemma ToggleKeepsColumn(task: Task, now: string, c: TaskColumn)
    requires PatchableColumn(c) && c != StatusColumn
    ensures ColumnValue(UpdatedRow(task, TogglePatch(task), now), c) == ColumnValue(task, c)
  {
    UpdateWritesPatchedColumns(task, TogglePatch(task), now, c);
    assert ColumnKey(c) != StatusKey;
  }

  /** The toggle leaves the columns it does not name as they were. */
  lemma ToggleKeepsContent(task: Task, now: string)
    ensures var r := UpdatedRow(task, TogglePatch(task), now);
      && r.title == task.title && r.description == task.description
      && r.projectId == task.projectId && r.priority == task.priority
      && r.dueDate == task.dueDate && r.parentTaskId == task.parentTaskId
  {
    var r := UpdatedRow(task, TogglePatch(task), now);
    ToggleKeepsColumn(task, now, TitleColumn);
    assert r.title == task.title;
    ToggleKeepsColumn(task, now, DescriptionColumn);
    assert r.description == task.description;
    ToggleKeepsColumn(task, now, ProjectIdColumn);
    assert r.projectId == task.projectId;
    ToggleKeepsColumn(task, now, PriorityColumn);
    assert r.priority == task.priority;
    ToggleKeepsColumn(task, now, DueDateColumn);
    assert r.dueDate == task.dueDate;
    ToggleKeepsColumn(task, now, ParentTaskIdColumn);
  }

  /** `handleCardClick`: the task to select next, given the one selected now. */
  function CardClick(selected: Option<Task>, task: Task): (r: Option<Task>)
    ensures r.None? <==> selected.Some? && selected.value.id == task.id
    ensures r.Some? ==> r.value == task
  {
    if selected.Some? && selected.value.id == task.id then None else Some(task)
  }

  /** Clicking a card twice from no selection ends with no selection; from another card's selection, likewise. */
  lemma CardClickTwice(selected: Option<Task>, task: Task)
    requires selected.None? || selected.value.id != task.id
    ensures CardClick(selected, task) == Some(task)
    ensures CardClick(CardClick(selected, task), task) == None
  {
  }

  /**
   * `handleDrop`: whether it logs the drop. It never changes any state;
   * the logged case is the dragged id (`parseInt` of the transfer data,
   * NaN as None) differing from the card's id.
   */
  function DropLogs(transfer: string, taskId: int): (logs: bool)
    ensures logs <==> ParseInt(transfer) != Some(taskId)
  {
    ParseInt(transfer) != Some(taskId)
  }

  /** Dropping a card onto itself (the data its drag start set) does nothing at all. */
  lemma DropOntoItself(id: int)
    ensures !DropLogs(IntToString(id), id)
  {
    ParseIntToString(id);
  }

  /**
   * `parseInt` reads the id at the front of the dropped text: white space
   * before it, a '+' before a non-negative id and text after it that cannot
   * continue the number (" 7", "+7", "7abc") all count as dropping card 7
   * onto itself.
   */
  lemma DropReadsLeadingId(ws: string, plus: bool, id: int, rest: string)
    requires AllSpace(ws) && (plus ==> id >= 0)
    requires EndsNumber(if id < 0 then -id else id, rest)
    ensures !DropLogs(ws + (if plus then "+" else "") + IntToString(id) + rest, id)
  {
    ParseIntReadsLeadingInteger(ws, plus, id, rest);
  }

  /**
   * `isOverdue`: a due date that is present and non-empty, parses to a time
   * strictly before now, and a status other than completed. Date parsing is
   * the parameter `parse` (None for an invalid date, whose comparison is
   * false).
   */
  predicate IsOverdue(task: Task, now: int, parse: string -> Option<int>) {
    && TextTruthy(task.dueDate)
    && parse(task.dueDate.value).Some?
    && parse(task.dueDate.value).value < now
    && task.status != Completed
  }

  /** A task is overdue exactly when its due date is before now and it is not completed. */
  lemma OverdueIff(task: Task, now: int, parse: string -> Option<int>)
    ensures IsOverdue(task, now, parse) <==>
      (exists d :: task.dueDate == Some(d) && d != "" && parse(d).Some? && parse(d).value < now) && task.status != Completed
  {
    if IsOverdue(task, now, parse) {
      var d := task.dueDate.value;
      assert task.dueDate == Some(d) && d != "" && parse(d).Some? && parse(d).value < now;
    }
  }

  /** Toggling a task's completion makes it not overdue when it completes it, and never changes its due date. */
  lemma ToggleClearsOverdue(task: Task, now: string, clock: int, parse: string -> Option<int>)
    requires task.status != Completed
    ensures !IsOverdue(UpdatedRow(task, TogglePatch(task), now), clock, parse)
    ensures UpdatedRow(task, TogglePatch(task), now).dueDate == task.dueDate
  {
    ToggleThenUpdate(task, now);
    ToggleKeepsContent(task, now);
  }

  /** `priorityLabels`. */
  function PriorityLabel(p: Priority): (r: string)
    ensures r in ["Low", "Medium", "High", "Urgent"]
  {
    match p
    case 0 => "Low"
    case 1 => "Medium"
    case 2 => "High"
    case 3 => "Urgent"
  }

  /** Each priority has its own label, in rising order 0 to 3. */
  lemma PriorityLabelsDistinct(p: Priority, q: Priority)
    ensures PriorityLabel(p) == PriorityLabel(q) <==> p == q
    ensures PriorityLabel(0) == "Low" && PriorityLabel(3) == "Urgent"
  {
  }
}
