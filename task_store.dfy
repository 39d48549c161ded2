/**
 * The task store (src/stores/taskStore.ts): the task list, the selected
 * task and the list filter, the actions that replace them after a backend
 * call, and the filter predicate behind `getFilteredTasks`.
 */
module TaskStore {
  import opened Wrappers
  import opened Types
  import opened Text
  import opened ListOps
  import opened Rows
  import opened SetClause
  import opened ForeignKeys
  import opened Database
  import opened Backend

  // ---------------------------------------------------------------------
  // The filter
  // ---------------------------------------------------------------------

  /** The values the status field of the filter may take. */
  type StatusChoice = s: string | s == "all" || s == "pending" || s == "in_progress" || s == "completed"
    witness "all"

  /** The values the priority field of the filter may take. */
  type PriorityChoice = s: string | s == "all" || s == "0" || s == "1" || s == "2" || s == "3"
    witness "all"

  datatype TaskFilter = TaskFilter(status: StatusChoice, priority: PriorityChoice, projectId: Option<int>, search: string)

  /** `Partial<filter>`: None where the property is absent; `projectId: null` is Some(None). */
  datatype FilterPatch = FilterPatch(
    status: Option<StatusChoice>,
    priority: Option<PriorityChoice>,
    projectId: Option<Option<int>>,
    search: Option<string>)

  const InitialFilter := TaskFilter("all", "all", None, "")

  const EmptyPatch := FilterPatch(None, None, None, None)

  /** `{ ...state.filter, ...filter }`. */
  function MergeFilter(f: TaskFilter, p: FilterPatch): TaskFilter {
    TaskFilter(
      if p.status.Some? then p.status.value else f.status,
      if p.priority.Some? then p.priority.value else f.priority,
      if p.projectId.Some? then p.projectId.value else f.projectId,
      if p.search.Some? then p.search.value else f.search)
  }

  /**
   * `setFilter` overwrites exactly the fields the patch has and keeps the
   * others; so the empty patch changes nothing and a patch applied twice
   * acts as once.
   */
  lemma MergeFilterFields(f: TaskFilter, p: FilterPatch)
    ensures MergeFilter(f, p).status == if p.status.Some? then p.status.value else f.status
    ensures MergeFilter(f, p).priority == if p.priority.Some? then p.priority.value else f.priority
    ensures MergeFilter(f, p).projectId == if p.projectId.Some? then p.projectId.value else f.projectId
    ensures MergeFilter(f, p).search == if p.search.Some? then p.search.value else f.search
    ensures MergeFilter(f, EmptyPatch) == f
    ensures MergeFilter(MergeFilter(f, p), p) == MergeFilter(f, p)
  {
  }

  /** `filter.status !== 'all' && task.status !== filter.status` fails. */
  predicate StatusCheck(f: TaskFilter, t: Task) {
    f.status == "all" || StatusText(t.status) == f.status
  }

  /** `filter.priority !== 'all' && task.priority.toString() !== filter.priority` fails. */
  predicate PriorityCheck(f: TaskFilter, t: Task) {
    f.priority == "all" || IntToString(t.priority) == f.priority
  }

  /** `filter.projectId !== null && task.projectId !== filter.projectId` fails. */
  predicate ProjectCheck(f: TaskFilter, t: Task) {
    f.projectId.None? || t.projectId == f.projectId
  }

  /** `filter.search && !task.title.toLowerCase().includes(filter.search.toLowerCase())` fails. */
  predicate SearchCheck(f: TaskFilter, t: Task) {
    f.search == "" || Contains(Lower(t.title), Lower(f.search))
  }

  /** The callback of `getFilteredTasks`: all four checks pass. */
  predicate Matches(f: TaskFilter, t: Task) {
    StatusCheck(f, t) && PriorityCheck(f, t) && ProjectCheck(f, t) && SearchCheck(f, t)
  }

  /** `getFilteredTasks`. */
  function FilteredTasks(tasks: seq<Task>, f: TaskFilter): seq<Task> {
    Filter(tasks, (t: Task) => Matches(f, t))
  }

  /**
   * The filtered list is the task list with some entries left out and the
   * rest in order, and it keeps a task exactly when the task passes every
   * check.
   */
  lemma FilteredTasksSpec(tasks: seq<Task>, f: TaskFilter)
    ensures Subseq(FilteredTasks(tasks, f), tasks)
    ensures forall i :: 0 <= i < |tasks| ==> (tasks[i] in FilteredTasks(tasks, f) <==> Matches(f, tasks[i]))
    ensures forall i :: 0 <= i < |FilteredTasks(tasks, f)| ==> Matches(f, FilteredTasks(tasks, f)[i])
  {
    FilterIsSubseq(tasks, (t: Task) => Matches(f, t));
  }

  /** With the initial filter every task is shown, in order. */
  lemma InitialFilterShowsAll(tasks: seq<Task>)
    ensures FilteredTasks(tasks, InitialFilter) == tasks
  {
    FilterKeepsAll(tasks, (t: Task) => Matches(InitialFilter, t));
  }

  /** A status filter other than 'all' keeps exactly the tasks with that status. */
  lemma StatusCheckIsEquality(f: TaskFilter, t: Task, s: Status)
    requires f.status == StatusText(s)
    ensures StatusCheck(f, t) <==> t.status == s
  {
  }

  /** A priority filter other than 'all' keeps exactly the tasks with that priority: the decimal text is injective. */
  lemma PriorityCheckIsEquality(f: TaskFilter, t: Task, p: Priority)
    requires f.priority == IntToString(p)
    ensures PriorityCheck(f, t) <==> t.priority == p
  {
    if IntToString(t.priority) == IntToString(p) {
      ParseIntToString(t.priority);
      ParseIntToString(p);
    }
  }

  /** The search is case-insensitive: it compares lower-cased title and text. */
  lemma SearchIgnoresCase(f: TaskFilter, g: TaskFilter, t: Task)
    requires Lower(f.search) == Lower(g.search) && (f.search == "" <==> g.search == "")
    ensures SearchCheck(f, t) <==> SearchCheck(g, t)
  {
  }

  // ---------------------------------------------------------------------
  // Fallback data and the transforms of the selected task
  // ---------------------------------------------------------------------

  /** The tasks `loadTasks` installs when the backend fails; the three times are the clock readings it takes. */
  function SampleTasks(now: string, inOneDay: string, inThreeDays: string): (r: seq<Task>)
    ensures |r| == 3
    ensures forall i :: 0 <= i < |r| ==> r[i].id == i + 1 && r[i].projectId == Some(1)
    ensures forall i :: 0 <= i < |r| ==> (r[i].status == Completed <==> r[i].id == 3)
  {
    [ Task(1, "Complete project documentation", Some("Update the README and API documentation"), Some(1), 2,
           Pending, Some(inOneDay), now, now, None, None),
      Task(2, "Review code changes", Some("Review the latest pull requests from the team"), Some(1), 1,
           Pending, Some(inThreeDays), now, now, None, None),
      Task(3, "Setup development environment", Some("Install required tools and dependencies"), Some(1), 0,
           Completed, None, now, now, Some(now), None) ]
  }

  /** `state.selectedTask?.id === id ? row : state.selectedTask`. */
  function SelectedAfterUpdate(sel: Option<Task>, id: int, row: Task): (r: Option<Task>)
    ensures sel.Some? && sel.value.id == id ==> r == Some(row)
    ensures !(sel.Some? && sel.value.id == id) ==> r == sel
  {
    if sel.Some? && sel.value.id == id then Some(row) else sel
  }

  /** `state.selectedTask?.id === id ? null : state.selectedTask`. */
  function SelectedAfterDelete(sel: Option<Task>, id: int): (r: Option<Task>)
    ensures r.None? <==> sel.None? || sel.value.id == id
    ensures r.Some? ==> r == sel
  {
    if sel.Some? && sel.value.id == id then None else sel
  }

  /** Removing by id keeps the order of the rest and drops exactly the entries with that id. */
  lemma RemoveTaskSpec(tasks: seq<Task>, id: int)
    ensures Subseq(RemoveTask(tasks, id), tasks)
    ensures forall i :: 0 <= i < |tasks| ==> (tasks[i] in RemoveTask(tasks, id) <==> tasks[i].id != id)
    ensures forall i :: 0 <= i < |RemoveTask(tasks, id)| ==> RemoveTask(tasks, id)[i].id != id
  {
    FilterIsSubseq(tasks, (t: Task) => t.id != id);
  }

  /**
   * A subtask of the deleted task that the list holds stays in the list,
   * while the cascade removes it from the table.
   */
  lemma DeleteLeavesSubtaskInStore(listed: seq<Task>, stored: seq<Task>, id: int, child: Task)
    requires child in listed && child in stored
    requires child.parentTaskId == Some(id) && child.id != id
    ensures child in RemoveTask(listed, id)
    ensures child !in Survivors(stored, id)
  {
    RemoveTaskSpec(listed, id);
    DoomedIsClosed(stored, id);
    var k :| 0 <= k < |stored| && stored[k] == child;
    assert ChildOf(stored[k], Doomed(stored, id));
    assert child.id in Doomed(stored, id);
  }

  // ---------------------------------------------------------------------
  // The store
  // ---------------------------------------------------------------------

  class TaskStore {
    var tasks: seq<Task>
    var selectedTask: Option<Task>
    var filter: TaskFilter

    constructor()
      ensures tasks == [] && selectedTask == None && filter == InitialFilter
    {
      tasks := [];
      selectedTask := None;
      filter := InitialFilter;
    }

    /** `loadTasks`: the fetched list, or the sample list when the call fails. */
    method LoadTasks(api: Backend, now: string, inOneDay: string, inThreeDays: string)
      modifies this
      ensures tasks == if api.reachable then api.db.GetTasks() else SampleTasks(now, inOneDay, inThreeDays)
      ensures selectedTask == old(selectedTask) && filter == old(filter)
    {
      var reply := api.GetTasks();
      if reply.Some? {
        tasks := reply.value;
      } else {
        tasks := SampleTasks(now, inOneDay, inThreeDays);
      }
    }

    /**
     * `createTask`: on an answer the new record goes to the front of the
     * list; on a failure the list stays. The answer, which the source
     * discards, is returned.
     */
    method CreateTask(api: Backend, task: NewTask, now: string) returns (reply: Option<Task>)
      requires api.Valid()
      modifies this, api.db
      ensures api.Valid()
      ensures api.db.State() == if api.reachable then AfterCreateTask(old(api.db.State()), task, now) else old(api.db.State())
      ensures reply.Some? <==> api.reachable && CreateTaskSucceeds(old(api.db.State()), task, now)
      ensures reply.Some? ==>
        && reply.value == InsertedTask(task, old(api.db.lastTaskId) + 1, now)
        && tasks == [reply.value] + old(tasks)
      ensures reply.None? ==> tasks == old(tasks)
      ensures selectedTask == old(selectedTask) && filter == old(filter)
    {
      reply := api.CreateTask(task, now);
      if reply.Some? {
        tasks := [reply.value] + tasks;
      }
    }

    /**
     * `updateTask`: on an answer every entry with that id, and the selected
     * task if it has that id, become the answered record; on a failure
     * nothing in the store changes.
     */
    method UpdateTask(api: Backend, id: int, updates: TaskPatch, now: string) returns (reply: Option<Task>)
      requires api.Valid()
      modifies this, api.db
      ensures api.Valid()
      ensures api.db.State() == if api.reachable then AfterUpdateTask(old(api.db.State()), id, updates, now)
                                else old(api.db.State())
      ensures reply.Some? <==> api.reachable && UpdateTaskSucceeds(old(api.db.State()), id, updates, now)
      ensures reply.Some? ==>
        && reply.value == UpdatedRow(FindTask(old(api.db.tasks), id).value, updates, now)
        && tasks == ReplaceTask(old(tasks), id, reply.value)
        && selectedTask == SelectedAfterUpdate(old(selectedTask), id, reply.value)
      ensures reply.None? ==> tasks == old(tasks) && selectedTask == old(selectedTask)
      ensures filter == old(filter)
    {
      reply := api.UpdateTask(id, updates, now);
      if reply.Some? {
        tasks := ReplaceTask(tasks, id, reply.value);
        selectedTask := SelectedAfterUpdate(selectedTask, id, reply.value);
      }
    }

    /**
     * `deleteTask`: once the call answers, whatever the answer, the entries
     * with that id leave the list and the selected task is cleared if it has
     * that id; on a failure nothing changes. The table loses the task and
     * its subtasks, the list only the named task
     * (`DeleteLeavesSubtaskInStore`).
     */
    method DeleteTask(api: Backend, id: int) returns (reply: Option<bool>)
      requires api.Valid()
      modifies this, api.db
      ensures api.Valid()
      ensures api.db.State() == if api.reachable then AfterDeleteTask(old(api.db.State()), id) else old(api.db.State())
      ensures reply == if api.reachable then Some(HasTask(old(api.db.tasks), id)) else None
      ensures reply.Some? ==>
        tasks == RemoveTask(old(tasks), id) && selectedTask == SelectedAfterDelete(old(selectedTask), id)
      ensures reply.None? ==> tasks == old(tasks) && selectedTask == old(selectedTask)
      ensures filter == old(filter)
    {
      reply := api.DeleteTask(id);
      if reply.Some? {
        tasks := RemoveTask(tasks, id);
        selectedTask := SelectedAfterDelete(selectedTask, id);
      }
    }

    method SetSelectedTask(task: Option<Task>)
      modifies this
      ensures selectedTask == task
      ensures tasks == old(tasks) && filter == old(filter)
    {
      selectedTask := task;
    }

    method SetFilter(patch: FilterPatch)
      modifies this
      ensures filter == MergeFilter(old(filter), patch)
      ensures tasks == old(tasks) && selectedTask == old(selectedTask)
    {
      filter := MergeFilter(filter, patch);
    }

    /** `getFilteredTasks`. */
    function GetFilteredTasks(): seq<Task>
      reads this
    {
      FilteredTasks(tasks, filter)
    }
  }
}
