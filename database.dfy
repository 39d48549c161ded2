/**
 * `DatabaseService` (src/services/database.ts): the `projects` and `tasks`
 * tables held in memory, with SQLite's AUTOINCREMENT counters, and the
 * service's queries and statements over them. `CURRENT_TIMESTAMP` is the
 * `now` argument of each statement.
 */
module Database {
  import opened Wrappers
  import opened Types
  import opened ListOps
  import opened Sorting
  import Text
  import opened SetClause
  import PS = ProjectSetClause
  import opened ForeignKeys
  import opened Rows

  // ---------------------------------------------------------------------
  // Queries
  // ---------------------------------------------------------------------

  /** `CASE WHEN status = 'completed' THEN 1 ELSE 0 END`. */
  function CompletionRank(t: Task): int {
    if t.status == Completed then 1 else 0
  }

  /** `a` may be listed before `b` under `ORDER BY <rank>, priority DESC, created_at DESC`. */
  predicate TaskPrecedes(a: Task, b: Task) {
    || CompletionRank(a) < CompletionRank(b)
    || (CompletionRank(a) == CompletionRank(b)
        && (a.priority > b.priority
            || (a.priority == b.priority && Text.TextLe(b.createdAt, a.createdAt))))
  }

  lemma TaskPrecedesIsTotalPreorder()
    ensures TotalPreorder(TaskPrecedes)
  {
    forall a: Task, b: Task ensures TaskPrecedes(a, b) || TaskPrecedes(b, a) {
      Text.TextLeTotal(a.createdAt, b.createdAt);
    }
    forall a: Task, b: Task, c: Task | TaskPrecedes(a, b) && TaskPrecedes(b, c)
      ensures TaskPrecedes(a, c)
    {
      if Text.TextLe(c.createdAt, b.createdAt) && Text.TextLe(b.createdAt, a.createdAt) {
        Text.TextLeTransitive(c.createdAt, b.createdAt, a.createdAt);
      }
    }
  }

  /** `getTasks`: every row of the table, in the query's order. */
  function OrderedTasks(tasks: seq<Task>): (r: seq<Task>)
    ensures multiset(r) == multiset(tasks)
  {
    InsertionSort(tasks, TaskPrecedes)
  }

  /**
   * `getTasks` lists every row once; no completed task comes before a task
   * that is not completed; within the same completion, priority does not
   * increase; within the same completion and priority, `created_at` does not
   * increase.
   */
  lemma GetTasksOrder(tasks: seq<Task>)
    ensures multiset(OrderedTasks(tasks)) == multiset(tasks)
    ensures var r := OrderedTasks(tasks);
      forall i, j :: 0 <= i < j < |r| && r[i].status == Completed ==> r[j].status == Completed
    ensures var r := OrderedTasks(tasks);
      forall i, j :: 0 <= i < j < |r| && CompletionRank(r[i]) == CompletionRank(r[j]) ==>
        r[i].priority >= r[j].priority
    ensures var r := OrderedTasks(tasks);
      forall i, j ::
        0 <= i < j < |r| && CompletionRank(r[i]) == CompletionRank(r[j]) && r[i].priority == r[j].priority
        ==> Text.TextLe(r[j].createdAt, r[i].createdAt)
  {
    TaskPrecedesIsTotalPreorder();
    InsertionSortSorted(tasks, TaskPrecedes);
  }

  predicate ProjectPrecedes(a: Project, b: Project) {
    Text.TextLe(a.name, b.name)
  }

  /** `getProjects`: every row of the table, ordered by name. */
  function OrderedProjects(projects: seq<Project>): (r: seq<Project>)
    ensures multiset(r) == multiset(projects)
  {
    InsertionSort(projects, ProjectPrecedes)
  }

  lemma GetProjectsOrder(projects: seq<Project>)
    ensures multiset(OrderedProjects(projects)) == multiset(projects)
    ensures var r := OrderedProjects(projects);
      forall i, j :: 0 <= i < j < |r| ==> Text.TextLe(r[i].name, r[j].name)
  {
    forall a: Project, b: Project ensures ProjectPrecedes(a, b) || ProjectPrecedes(b, a) {
      Text.TextLeTotal(a.name, b.name);
    }
    forall a: Project, b: Project, c: Project | ProjectPrecedes(a, b) && ProjectPrecedes(b, c)
      ensures ProjectPrecedes(a, c)
    {
      Text.TextLeTransitive(a.name, b.name, c.name);
    }
    InsertionSortSorted(projects, ProjectPrecedes);
  }

  predicate HasTask(tasks: seq<Task>, id: int) {
    exists i :: 0 <= i < |tasks| && tasks[i].id == id
  }

  predicate HasProject(projects: seq<Project>, id: int) {
    exists i :: 0 <= i < |projects| && projects[i].id == id
  }

  /** `getTaskById`: the row with that id, or `undefined`. */
  function FindTask(tasks: seq<Task>, id: int): (r: Option<Task>)
    ensures r.Some? ==> r.value in tasks && r.value.id == id
    ensures r.None? <==> !HasTask(tasks, id)
  {
    if tasks == [] then None
    else if tasks[0].id == id then Some(tasks[0])
    else
      var r := FindTask(tasks[1..], id);
      assert forall i :: 0 <= i < |tasks| - 1 ==> tasks[1..][i] == tasks[i + 1];
      r
  }

  /** `getProjectById`: the row with that id, or `undefined`. */
  function FindProject(projects: seq<Project>, id: int): (r: Option<Project>)
    ensures r.Some? ==> r.value in projects && r.value.id == id
    ensures r.None? <==> !HasProject(projects, id)
  {
    if projects == [] then None
    else if projects[0].id == id then Some(projects[0])
    else
      var r := FindProject(projects[1..], id);
      assert forall i :: 0 <= i < |projects| - 1 ==> projects[1..][i] == projects[i + 1];
      r
  }

  // ---------------------------------------------------------------------
  // Rows the statements write
  // ---------------------------------------------------------------------

  /** The row `createTask`'s INSERT adds under the given id. */
  function InsertedTask(task: NewTask, id: int, now: string): Task {
    Task(id, task.title, TextOrNull(task.description), IdOrNull(task.projectId), task.priority,
         task.status, TextOrNull(task.dueDate), now, now, None, IdOrNull(task.parentTaskId))
  }

  /**
   * `createTask` stores falsy optional values as NULL (so project id 0 is no
   * project), stamps both timestamps with the statement's time and leaves
   * `completed_at` NULL, whatever the status.
   */
  lemma InsertedTaskFields(task: NewTask, id: int, now: string)
    ensures var t := InsertedTask(task, id, now);
      && t.createdAt == now && t.updatedAt == now && t.completedAt == None
      && (task.projectId == Some(0) ==> t.projectId == None)
      && (task.parentTaskId == Some(0) ==> t.parentTaskId == None)
      && (task.description == Some("") ==> t.description == None)
      && (task.dueDate == Some("") ==> t.dueDate == None)
      && (IdTruthy(task.projectId) ==> t.projectId == task.projectId)
      && (TextTruthy(task.description) ==> t.description == task.description)
  {
  }

  const DefaultColor: string := "#3b82f6"

  /** `project.color || '#3b82f6'`: a stored project always has a colour. */
  function StoredColor(color: Option<string>): (c: Option<string>)
    ensures c.Some?
    ensures TextTruthy(color) ==> c == color
    ensures !TextTruthy(color) ==> c == Some(DefaultColor)
  {
    if TextTruthy(color) then color else Some(DefaultColor)
  }

  /** The three projects of first-run seeding, under the next three ids. */
  function DefaultProjects(last: int, now: string): seq<Project> {
    [ Project(last + 1, "Personal", Some("#3b82f6"), now),
      Project(last + 2, "Work", Some("#10b981"), now),
      Project(last + 3, "Shopping", Some("#f59e0b"), now) ]
  }

  /** `insertDefaultData` as a function of the table and its counter. */
  function Seeded(projects: seq<Project>, last: int, now: string): (seq<Project>, int) {
    if |projects| == 0 then (DefaultProjects(last, now), last + 3) else (projects, last)
  }

  /** Seeding a second time, at any later time, adds nothing. */
  lemma SeedingIsIdempotent(projects: seq<Project>, last: int, now: string, later: string)
    ensures Seeded(Seeded(projects, last, now).0, Seeded(projects, last, now).1, later)
      == Seeded(projects, last, now)
  {
    if |projects| == 0 {
      assert |DefaultProjects(last, now)| == 3;
    }
  }

  /** The rows that survive `DELETE FROM tasks WHERE id = root` and its cascade. */
  function Survivors(tasks: seq<Task>, root: int): (r: seq<Task>)
    ensures forall i :: 0 <= i < |r| ==> r[i] in tasks && r[i].id !in Doomed(tasks, root)
    ensures forall i :: 0 <= i < |tasks| && tasks[i].id !in Doomed(tasks, root) ==> tasks[i] in r
  {
    Filter(tasks, (t: Task) => t.id !in Doomed(tasks, root))
  }

  // ---------------------------------------------------------------------
  // Table invariants
  // ---------------------------------------------------------------------

  /** Ids strictly increase along the table (AUTOINCREMENT rows are appended in id order). */
  predicate TaskIdsIncrease(tasks: seq<Task>) {
    forall i, j :: 0 <= i < j < |tasks| ==> tasks[i].id < tasks[j].id
  }

  predicate ProjectIdsIncrease(projects: seq<Project>) {
    forall i, j :: 0 <= i < j < |projects| ==> projects[i].id < projects[j].id
  }

  /** Every id was issued by the counter. */
  predicate TaskIdsIssued(tasks: seq<Task>, last: int) {
    forall i :: 0 <= i < |tasks| ==> 1 <= tasks[i].id <= last
  }

  predicate ProjectIdsIssued(projects: seq<Project>, last: int) {
    forall i :: 0 <= i < |projects| ==> 1 <= projects[i].id <= last
  }

  /** A row's foreign keys name rows that exist. */
  predicate RowRefsResolve(projects: seq<Project>, tasks: seq<Task>, t: Task) {
    && (t.projectId.Some? ==> HasProject(projects, t.projectId.value))
    && (t.parentTaskId.Some? ==> HasTask(tasks, t.parentTaskId.value))
  }

  predicate RefsResolve(projects: seq<Project>, tasks: seq<Task>) {
    forall i :: 0 <= i < |tasks| ==> RowRefsResolve(projects, tasks, tasks[i])
  }

  lemma HasTaskAppend(tasks: seq<Task>, t: Task, x: int)
    ensures HasTask(tasks + [t], x) <==> HasTask(tasks, x) || t.id == x
  {
    if HasTask(tasks, x) {
      var i :| 0 <= i < |tasks| && tasks[i].id == x;
      assert (tasks + [t])[i] == tasks[i];
    }
    if t.id == x {
      assert (tasks + [t])[|tasks|].id == x;
    }
    if HasTask(tasks + [t], x) && t.id != x {
      var i :| 0 <= i < |tasks| + 1 && (tasks + [t])[i].id == x;
      assert tasks[i] == (tasks + [t])[i];
    }
  }

  lemma HasProjectAppend(projects: seq<Project>, more: seq<Project>, x: int)
    requires HasProject(projects, x)
    ensures HasProject(projects + more, x)
  {
    var i :| 0 <= i < |projects| && projects[i].id == x;
    assert (projects + more)[i] == projects[i];
  }

  /**
   * Rewriting a task in place under its own id keeps the ids, their order
   * and, when the new row's own references resolve, every reference; the
   * row is then found under that id.
   */
  lemma ReplaceTaskKeepsInvariants(projects: seq<Project>, tasks: seq<Task>, last: int, id: int, row: Task)
    requires TaskIdsIncrease(tasks) && TaskIdsIssued(tasks, last) && RefsResolve(projects, tasks)
    requires row.id == id && HasTask(tasks, id)
    requires RowRefsResolve(projects, ReplaceTask(tasks, id, row), row)
    ensures var after := ReplaceTask(tasks, id, row);
      && TaskIdsIncrease(after) && TaskIdsIssued(after, last) && RefsResolve(projects, after)
      && FindTask(after, id) == Some(row)
  {
    var after := ReplaceTask(tasks, id, row);
    ReplacedTasksResolve(projects, tasks, id, row);
    FindReplacedTask(tasks, id, row);
  }

  /** Rewriting a row under its own id keeps every reference resolving when the new row's do. */
  lemma ReplacedTasksResolve(projects: seq<Project>, tasks: seq<Task>, id: int, row: Task)
    requires row.id == id && RefsResolve(projects, tasks)
    requires RowRefsResolve(projects, ReplaceTask(tasks, id, row), row)
    ensures RefsResolve(projects, ReplaceTask(tasks, id, row))
  {
    var after := ReplaceTask(tasks, id, row);
    SameIdsSameTasks(tasks, after);
    forall i | 0 <= i < |after| ensures RowRefsResolve(projects, after, after[i]) {
      if tasks[i].id != id {
        assert RowRefsResolve(projects, tasks, tasks[i]);
      }
    }
  }

  /** The rewritten row is found again under its id. */
  lemma FindReplacedTask(tasks: seq<Task>, id: int, row: Task)
    requires row.id == id && HasTask(tasks, id)
    ensures FindTask(ReplaceTask(tasks, id, row), id) == Some(row)
  {
    var after := ReplaceTask(tasks, id, row);
    var k :| 0 <= k < |tasks| && tasks[k].id == id;
    assert after[k].id == id;
    FindTaskAllSame(after, id, row);
  }

  /** When every row with the id is `row`, looking the id up finds `row`. */
  lemma FindTaskAllSame(rows: seq<Task>, id: int, row: Task)
    requires HasTask(rows, id)
    requires forall i :: 0 <= i < |rows| && rows[i].id == id ==> rows[i] == row
    ensures FindTask(rows, id) == Some(row)
  {
    var found := FindTask(rows, id);
    var j :| 0 <= j < |rows| && rows[j] == found.value;
  }

  /** Two tables with the same id at every position hold the same ids. */
  lemma SameIdsSameTasks(a: seq<Task>, b: seq<Task>)
    requires |a| == |b| && forall i :: 0 <= i < |a| ==> a[i].id == b[i].id
    ensures forall x :: HasTask(a, x) <==> HasTask(b, x)
  {
    forall x ensures HasTask(a, x) <==> HasTask(b, x) {
      if HasTask(a, x) {
        var i :| 0 <= i < |a| && a[i].id == x;
        assert b[i].id == x;
      }
      if HasTask(b, x) {
        var i :| 0 <= i < |b| && b[i].id == x;
        assert a[i].id == x;
      }
    }
  }

  /**
   * Rewriting a project in place under its own id keeps the ids, their
   * order and every reference, and the row is then found under that id.
   */
  lemma ReplaceProjectKeepsInvariants(projects: seq<Project>, tasks: seq<Task>, last: int, id: int, row: Project)
    requires ProjectIdsIncrease(projects) && ProjectIdsIssued(projects, last) && RefsResolve(projects, tasks)
    requires row.id == id && HasProject(projects, id)
    ensures var after := ReplaceProject(projects, id, row);
      && ProjectIdsIncrease(after) && ProjectIdsIssued(after, last) && RefsResolve(after, tasks)
      && FindProject(after, id) == Some(row)
  {
    var after := ReplaceProject(projects, id, row);
    SameIdsKeepProjectInvariants(projects, after, tasks, last);
    FindReplacedProject(projects, id, row);
  }

  /** Tables whose project ids agree position by position keep the project invariants. */
  lemma SameIdsKeepProjectInvariants(a: seq<Project>, b: seq<Project>, tasks: seq<Task>, last: int)
    requires |a| == |b| && forall i :: 0 <= i < |a| ==> a[i].id == b[i].id
    requires ProjectIdsIncrease(a) && ProjectIdsIssued(a, last) && RefsResolve(a, tasks)
    ensures ProjectIdsIncrease(b) && ProjectIdsIssued(b, last) && RefsResolve(b, tasks)
  {
    SameIdsSameProjects(a, b);
    forall i | 0 <= i < |tasks| ensures RowRefsResolve(b, tasks, tasks[i]) {
      assert RowRefsResolve(a, tasks, tasks[i]);
    }
  }

  /** The rewritten project is found again under its id. */
  lemma FindReplacedProject(projects: seq<Project>, id: int, row: Project)
    requires row.id == id && HasProject(projects, id)
    ensures FindProject(ReplaceProject(projects, id, row), id) == Some(row)
  {
    var after := ReplaceProject(projects, id, row);
    var k :| 0 <= k < |projects| && projects[k].id == id;
    assert after[k].id == id;
    FindProjectAllSame(after, id, row);
  }

  /** When every row with the id is `row`, looking the id up finds `row`. */
  lemma FindProjectAllSame(rows: seq<Project>, id: int, row: Project)
    requires HasProject(rows, id)
    requires forall i :: 0 <= i < |rows| && rows[i].id == id ==> rows[i] == row
    ensures FindProject(rows, id) == Some(row)
  {
    var found := FindProject(rows, id);
    var j :| 0 <= j < |rows| && rows[j] == found.value;
  }

  lemma SameIdsSameProjects(a: seq<Project>, b: seq<Project>)
    requires |a| == |b| && forall i :: 0 <= i < |a| ==> a[i].id == b[i].id
    ensures forall x :: HasProject(a, x) <==> HasProject(b, x)
  {
    forall x ensures HasProject(a, x) <==> HasProject(b, x) {
      if HasProject(a, x) {
        var i :| 0 <= i < |a| && a[i].id == x;
        assert b[i].id == x;
      }
      if HasProject(b, x) {
        var i :| 0 <= i < |b| && b[i].id == x;
        assert a[i].id == x;
      }
    }
  }

  /**
   * The cascade keeps the table's invariants: ids still increase and were
   * issued, the deleted id is gone, and every surviving row's parent
   * survives too.
   */
  lemma SurvivorsKeepInvariants(projects: seq<Project>, tasks: seq<Task>, root: int, last: int)
    requires TaskIdsIncrease(tasks) && TaskIdsIssued(tasks, last) && RefsResolve(projects, tasks)
    ensures var r := Survivors(tasks, root);
      TaskIdsIncrease(r) && TaskIdsIssued(r, last) && RefsResolve(projects, r) && !HasTask(r, root)
  {
    SurvivorIdsKeep(tasks, root, last);
    SurvivorsResolve(projects, tasks, root);
  }

  /** The cascade's survivors keep ascending issued ids, and the root is gone. */
  lemma SurvivorIdsKeep(tasks: seq<Task>, root: int, last: int)
    requires TaskIdsIncrease(tasks) && TaskIdsIssued(tasks, last)
    ensures var r := Survivors(tasks, root);
      TaskIdsIncrease(r) && TaskIdsIssued(r, last) && !HasTask(r, root)
  {
    var r := Survivors(tasks, root);
    DoomedIsClosed(tasks, root);
    var key := (t: Task) => t.id;
    assert AscendingBy(tasks, key);
    FilterKeepsAscending(tasks, (t: Task) => t.id !in Doomed(tasks, root), key);
    assert AscendingBy(r, key);
    forall i | 0 <= i < |r| ensures 1 <= r[i].id <= last {
      var k :| 0 <= k < |tasks| && tasks[k] == r[i];
    }
    forall j | 0 <= j < |r| ensures r[j].id != root {
    }
  }

  /** Every survivor's parent survives, so the references still resolve. */
  lemma SurvivorsResolve(projects: seq<Project>, tasks: seq<Task>, root: int)
    requires RefsResolve(projects, tasks)
    ensures RefsResolve(projects, Survivors(tasks, root))
  {
    var d := Doomed(tasks, root);
    var r := Survivors(tasks, root);
    DoomedIsClosed(tasks, root);
    forall i | 0 <= i < |r| ensures RowRefsResolve(projects, r, r[i]) {
      var k :| 0 <= k < |tasks| && tasks[k] == r[i];
      assert RowRefsResolve(projects, tasks, tasks[k]);
      var p := r[i].parentTaskId;
      if p.Some? {
        var m :| 0 <= m < |tasks| && tasks[m].id == p.value;
        assert p.value !in d;
        var j :| 0 <= j < |r| && r[j] == tasks[m];
        assert r[j].id == p.value;
      }
    }
  }

  /** The projects left by a delete keep ascending issued ids, and none has the deleted id. */
  lemma RemainingProjectsKeepIds(projects: seq<Project>, id: int, last: int)
    requires ProjectIdsIncrease(projects) && ProjectIdsIssued(projects, last)
    ensures var ps := RemoveProject(projects, id);
      ProjectIdsIncrease(ps) && ProjectIdsIssued(ps, last) && !HasProject(ps, id)
  {
    var ps := RemoveProject(projects, id);
    var key := (p: Project) => p.id;
    assert AscendingBy(projects, key);
    FilterKeepsAscending(projects, (p: Project) => p.id != id, key);
    assert AscendingBy(ps, key);
    forall i | 0 <= i < |ps| ensures 1 <= ps[i].id <= last {
      var k :| 0 <= k < |projects| && projects[k] == ps[i];
    }
  }

  /** After ON DELETE SET NULL every task reference names a remaining row. */
  lemma ClearedTasksResolve(projects: seq<Project>, tasks: seq<Task>, id: int)
    requires RefsResolve(projects, tasks)
    ensures RefsResolve(RemoveProject(projects, id), ClearProject(tasks, id))
  {
    var ps := RemoveProject(projects, id);
    var ts := ClearProject(tasks, id);
    SameIdsSameTasks(tasks, ts);
    forall i | 0 <= i < |ts| ensures RowRefsResolve(ps, ts, ts[i]) {
      assert RowRefsResolve(projects, tasks, tasks[i]);
      var q := ts[i].projectId;
      if q.Some? {
        var m :| 0 <= m < |projects| && projects[m].id == q.value;
        var j :| 0 <= j < |ps| && ps[j] == projects[m];
      }
    }
  }

  /**
   * Deleting a project keeps the tables well formed: the other projects
   * keep ascending issued ids, the tasks keep theirs, every reference still
   * resolves, and the deleted id names no project.
   */
  lemma RemoveProjectKeepsInvariants(projects: seq<Project>, tasks: seq<Task>, id: int, lastProject: int, lastTask: int)
    requires ProjectIdsIncrease(projects) && ProjectIdsIssued(projects, lastProject)
    requires TaskIdsIncrease(tasks) && TaskIdsIssued(tasks, lastTask) && RefsResolve(projects, tasks)
    ensures var ps := RemoveProject(projects, id);
      var ts := ClearProject(tasks, id);
      && ProjectIdsIncrease(ps) && ProjectIdsIssued(ps, lastProject)
      && TaskIdsIncrease(ts) && TaskIdsIssued(ts, lastTask) && RefsResolve(ps, ts)
      && !HasProject(ps, id)
  {
    RemainingProjectsKeepIds(projects, id, lastProject);
    ClearedTasksResolve(projects, tasks, id);
    var ts := ClearProject(tasks, id);
    assert forall i :: 0 <= i < |ts| ==> ts[i].id == tasks[i].id;
  }

  // ---------------------------------------------------------------------
  // The tables as a value, and what each statement leaves of them
  // ---------------------------------------------------------------------

  /** Both tables with their `sqlite_sequence` counters. */
  datatype Tables = Tables(projects: seq<Project>, tasks: seq<Task>, lastProjectId: int, lastTaskId: int)

  /** `createTask` inserts when the new row's foreign keys name existing rows. */
  predicate CreateTaskSucceeds(s: Tables, task: NewTask, now: string) {
    var row := InsertedTask(task, s.lastTaskId + 1, now);
    RowRefsResolve(s.projects, s.tasks + [row], row)
  }

  /** The tables after `createTask`: one row under the next id, or nothing changed. */
  function AfterCreateTask(s: Tables, task: NewTask, now: string): Tables {
    if CreateTaskSucceeds(s, task, now) then
      s.(tasks := s.tasks + [InsertedTask(task, s.lastTaskId + 1, now)], lastTaskId := s.lastTaskId + 1)
    else s
  }

  /** `updateTask` changes a row when it exists and its updated foreign keys name existing rows. */
  predicate UpdateTaskSucceeds(s: Tables, id: int, updates: TaskPatch, now: string) {
    && HasTask(s.tasks, id)
    && var row := UpdatedRow(FindTask(s.tasks, id).value, updates, now);
       RowRefsResolve(s.projects, ReplaceTask(s.tasks, id, row), row)
  }

  /** The tables after `updateTask`: the row rewritten by the SET list, or nothing changed. */
  function AfterUpdateTask(s: Tables, id: int, updates: TaskPatch, now: string): Tables {
    if UpdateTaskSucceeds(s, id, updates, now) then
      s.(tasks := ReplaceTask(s.tasks, id, UpdatedRow(FindTask(s.tasks, id).value, updates, now)))
    else s
  }

  /** The tables after `deleteTask`: the row and everything below it gone. */
  function AfterDeleteTask(s: Tables, id: int): Tables {
    if HasTask(s.tasks, id) then s.(tasks := Survivors(s.tasks, id)) else s
  }

  /** The tables after `createProject`: one row under the next id. */
  function AfterCreateProject(s: Tables, project: NewProject, now: string): Tables {
    s.(projects := s.projects + [Project(s.lastProjectId + 1, project.name, StoredColor(project.color), now)],
       lastProjectId := s.lastProjectId + 1)
  }

  /** `updateProject` changes a row when the SET list is not empty and the row exists. */
  predicate UpdateProjectSucceeds(s: Tables, id: int, updates: PS.Patch) {
    PS.BoundEntries(updates) != [] && HasProject(s.projects, id)
  }

  /** The tables after `updateProject`: the row rewritten, or nothing changed. */
  function AfterUpdateProject(s: Tables, id: int, updates: PS.Patch): Tables {
    if UpdateProjectSucceeds(s, id, updates) then
      s.(projects := ReplaceProject(s.projects, id, PS.UpdatedProject(FindProject(s.projects, id).value, updates)))
    else s
  }

  /** The tables after `deleteProject`: the row gone and its tasks without a project. */
  function AfterDeleteProject(s: Tables, id: int): Tables {
    if HasProject(s.projects, id) then s.(projects := RemoveProject(s.projects, id), tasks := ClearProject(s.tasks, id))
    else s
  }

  /**
   * AUTOINCREMENT never issues an id twice: after a task is deleted, the
   * next task created gets an id above every id issued so far, the deleted
   * one included.
   */
  lemma DeletedTaskIdNotReissued(s: Tables, id: int, task: NewTask, now: string)
    requires TaskIdsIssued(s.tasks, s.lastTaskId) && HasTask(s.tasks, id)
    requires CreateTaskSucceeds(AfterDeleteTask(s, id), task, now)
    ensures var after := AfterCreateTask(AfterDeleteTask(s, id), task, now);
      after.tasks[|after.tasks| - 1].id > s.lastTaskId >= id
  {
    var k :| 0 <= k < |s.tasks| && s.tasks[k].id == id;
    assert s.tasks[k].id <= s.lastTaskId;
  }

  /** The same for projects: a deleted project's id is never issued again. */
  lemma DeletedProjectIdNotReissued(s: Tables, id: int, project: NewProject, now: string)
    requires ProjectIdsIssued(s.projects, s.lastProjectId) && HasProject(s.projects, id)
    ensures var after := AfterCreateProject(AfterDeleteProject(s, id), project, now);
      after.projects[|after.projects| - 1].id > s.lastProjectId >= id
  {
    var k :| 0 <= k < |s.projects| && s.projects[k].id == id;
    assert s.projects[k].id <= s.lastProjectId;
  }

  // ---------------------------------------------------------------------
  // The service
  // ---------------------------------------------------------------------

  class DatabaseService {
    var projects: seq<Project>
    var tasks: seq<Task>
    /** The `sqlite_sequence` entry of each table: the largest id AUTOINCREMENT has issued. */
    var lastProjectId: int
    var lastTaskId: int

    /**
     * What SQLite keeps true of the two tables: ids are issued in increasing
     * order and never above the counter, and every foreign key names an
     * existing row.
     */
    predicate Valid()
      reads this
    {
      && 0 <= lastProjectId && 0 <= lastTaskId
      && ProjectIdsIncrease(projects) && ProjectIdsIssued(projects, lastProjectId)
      && TaskIdsIncrease(tasks) && TaskIdsIssued(tasks, lastTaskId)
      && RefsResolve(projects, tasks)
    }

    /** A database file created afresh by `createTables`: both tables empty, no id issued yet. */
    constructor()
      ensures Valid()
      ensures projects == [] && tasks == [] && lastProjectId == 0 && lastTaskId == 0
    {
      projects := [];
      tasks := [];
      lastProjectId := 0;
      lastTaskId := 0;
    }

    /** `initialize` on an open database: the tables already exist, then first-run seeding. */
    method Initialize(now: string)
      requires Valid()
      modifies this
      ensures Valid()
      ensures (projects, lastProjectId) == Seeded(old(projects), old(lastProjectId), now)
      ensures tasks == old(tasks) && lastTaskId == old(lastTaskId)
    {
      InsertDefaultData(now);
    }

    /** The tables and their counters as a value. */
    function State(): Tables
      reads this
    {
      Tables(projects, tasks, lastProjectId, lastTaskId)
    }

    /** `getTasks`. */
    function GetTasks(): seq<Task>
      reads this
    {
      OrderedTasks(tasks)
    }

    /** `getProjects`. */
    function GetProjects(): seq<Project>
      reads this
    {
      OrderedProjects(projects)
    }

    /** `INSERT INTO projects (name, color) VALUES (?, ?)`, then the re-read by `lastInsertRowid`. */
    method InsertProject(name: string, color: Option<string>, now: string) returns (p: Project)
      requires Valid()
      modifies this
      ensures Valid()
      ensures p == Project(old(lastProjectId) + 1, name, color, now)
      ensures projects == old(projects) + [p] && lastProjectId == old(lastProjectId) + 1
      ensures tasks == old(tasks) && lastTaskId == old(lastTaskId)
    {
      var row := Project(lastProjectId + 1, name, color, now);
      forall i | 0 <= i < |tasks| ensures RowRefsResolve(projects + [row], tasks, tasks[i]) {
        if tasks[i].projectId.Some? {
          HasProjectAppend(projects, [row], tasks[i].projectId.value);
        }
      }
      projects := projects + [row];
      lastProjectId := lastProjectId + 1;
      assert projects[|projects| - 1].id == lastProjectId;
      var found := FindProject(projects, lastProjectId);
      p := found.value;
    }

    /** `insertDefaultData`: the three default projects, only into an empty table. */
    method InsertDefaultData(now: string)
      requires Valid()
      modifies this
      ensures Valid()
      ensures (projects, lastProjectId) == Seeded(old(projects), old(lastProjectId), now)
      ensures tasks == old(tasks) && lastTaskId == old(lastTaskId)
    {
      if |projects| == 0 {
        var personal := InsertProject("Personal", Some("#3b82f6"), now);
        var work := InsertProject("Work", Some("#10b981"), now);
        var shopping := InsertProject("Shopping", Some("#f59e0b"), now);
        assert projects == [personal, work, shopping];
      }
    }

    /**
     * `createTask`: one new row under the next id, unless a foreign key of
     * the new row names no row, in which case the statement fails and
     * nothing changes (the counter included).
     */
    method CreateTask(task: NewTask, now: string) returns (r: Result<Task>)
      requires Valid()
      modifies this
      ensures Valid()
      ensures projects == old(projects) && lastProjectId == old(lastProjectId)
      ensures var row := InsertedTask(task, old(lastTaskId) + 1, now);
        if RowRefsResolve(old(projects), old(tasks) + [row], row) then
          r == Ok(row) && tasks == old(tasks) + [row] && lastTaskId == old(lastTaskId) + 1
        else
          r == Err(ForeignKeyViolation) && tasks == old(tasks) && lastTaskId == old(lastTaskId)
      ensures r.Ok? ==> forall i :: 0 <= i < |old(tasks)| ==> old(tasks)[i].id < r.value.id
      ensures State() == AfterCreateTask(old(State()), task, now)
      ensures r.Ok? <==> CreateTaskSucceeds(old(State()), task, now)
    {
      var row := InsertedTask(task, lastTaskId + 1, now);
      if !RowRefsResolve(projects, tasks + [row], row) {
        r := Err(ForeignKeyViolation);
        return;
      }
      forall i | 0 <= i < |tasks| ensures RowRefsResolve(projects, tasks + [row], tasks[i]) {
        if tasks[i].parentTaskId.Some? {
          HasTaskAppend(tasks, row, tasks[i].parentTaskId.value);
        }
      }
      tasks := tasks + [row];
      lastTaskId := lastTaskId + 1;
      var found := FindTask(tasks, lastTaskId);
      assert found.Some? by {
        assert tasks[|tasks| - 1].id == lastTaskId;
      }
      r := Ok(found.value);
    }

    /**
     * `updateTask`: the SET list built from the patch is applied to the row
     * with that id. No such row: nothing changes and the re-read finds
     * nothing. A foreign key of the updated row naming no row: the statement
     * fails and nothing changes.
     */
    method UpdateTask(id: int, updates: TaskPatch, now: string) returns (r: Result<Option<Task>>)
      requires Valid()
      modifies this
      ensures Valid()
      ensures projects == old(projects) && lastProjectId == old(lastProjectId) && lastTaskId == old(lastTaskId)
      ensures !HasTask(old(tasks), id) ==> r == Ok(None) && tasks == old(tasks)
      ensures HasTask(old(tasks), id) ==>
        var row := UpdatedRow(FindTask(old(tasks), id).value, updates, now);
        var after := ReplaceTask(old(tasks), id, row);
        if RowRefsResolve(old(projects), after, row) then r == Ok(Some(row)) && tasks == after
        else r == Err(ForeignKeyViolation) && tasks == old(tasks)
      ensures State() == AfterUpdateTask(old(State()), id, updates, now)
    {
      var fields := BuildTaskSetList(updates);
      var found := FindTask(tasks, id);
      if found.None? {
        r := Ok(None);
        return;
      }
      var row := ApplyAll(found.value, fields, now);
      UpdateKeepsIdentityAndStampsTime(found.value, updates, now);
      var after := ReplaceTask(tasks, id, row);
      if !RowRefsResolve(projects, after, row) {
        r := Err(ForeignKeyViolation);
        return;
      }
      ReplaceTaskKeepsInvariants(projects, tasks, lastTaskId, id, row);
      tasks := after;
      var reread := FindTask(tasks, id);
      r := Ok(reread);
    }

    /**
     * `deleteTask`: true iff a row with that id existed; the row goes, and
     * with it, by the cascade, every task below it through `parent_task_id`.
     */
    method DeleteTask(id: int) returns (deleted: bool)
      requires Valid()
      modifies this
      ensures Valid()
      ensures projects == old(projects) && lastProjectId == old(lastProjectId) && lastTaskId == old(lastTaskId)
      ensures deleted <==> HasTask(old(tasks), id)
      ensures deleted ==> tasks == Survivors(old(tasks), id)
      ensures !deleted ==> tasks == old(tasks)
      ensures !HasTask(tasks, id)
      ensures State() == AfterDeleteTask(old(State()), id)
    {
      var changes := if HasTask(tasks, id) then 1 else 0;
      if changes > 0 {
        SurvivorsKeepInvariants(projects, tasks, id, lastTaskId);
        tasks := Survivors(tasks, id);
      }
      deleted := changes > 0;
    }

    /** `createProject`: one new row under the next id, coloured '#3b82f6' when no colour is given. */
    method CreateProject(project: NewProject, now: string) returns (p: Project)
      requires Valid()
      modifies this
      ensures Valid()
      ensures p == Project(old(lastProjectId) + 1, project.name, StoredColor(project.color), now)
      ensures projects == old(projects) + [p] && lastProjectId == old(lastProjectId) + 1
      ensures tasks == old(tasks) && lastTaskId == old(lastTaskId)
      ensures State() == AfterCreateProject(old(State()), project, now)
    {
      p := InsertProject(project.name, StoredColor(project.color), now);
    }

    /**
     * `updateProject`: a patch with nothing but `id`/`createdAt` yields
     * `UPDATE projects SET  WHERE id = ?`, which does not prepare; otherwise
     * the row with that id, if any, takes the patch's name and colour.
     */
    method UpdateProject(id: int, updates: PS.Patch) returns (r: Result<Option<Project>>)
      requires Valid()
      modifies this
      ensures Valid()
      ensures tasks == old(tasks) && lastProjectId == old(lastProjectId) && lastTaskId == old(lastTaskId)
      ensures PS.BoundEntries(updates) == [] ==> r == Err(SyntaxError) && projects == old(projects)
      ensures PS.BoundEntries(updates) != [] && !HasProject(old(projects), id) ==>
        r == Ok(None) && projects == old(projects)
      ensures PS.BoundEntries(updates) != [] && HasProject(old(projects), id) ==>
        var row := PS.UpdatedProject(FindProject(old(projects), id).value, updates);
        r == Ok(Some(row)) && projects == ReplaceProject(old(projects), id, row)
      ensures State() == AfterUpdateProject(old(State()), id, updates)
    {
      var fields := PS.BuildProjectSetList(updates);
      if fields == [] {
        r := Err(SyntaxError);
        return;
      }
      var found := FindProject(projects, id);
      if found.None? {
        r := Ok(None);
        return;
      }
      var row := PS.ApplyAll(found.value, fields);
      PS.UpdateProjectKeepsIdentity(found.value, fields);
      ReplaceProjectKeepsInvariants(projects, tasks, lastProjectId, id, row);
      projects := ReplaceProject(projects, id, row);
      var reread := FindProject(projects, id);
      r := Ok(reread);
    }

    /**
     * `deleteProject`: true iff a row with that id existed; the row goes and
     * its tasks stay, with `project_id` set to NULL.
     */
    method DeleteProject(id: int) returns (deleted: bool)
      requires Valid()
      modifies this
      ensures Valid()
      ensures lastProjectId == old(lastProjectId) && lastTaskId == old(lastTaskId)
      ensures deleted <==> HasProject(old(projects), id)
      ensures deleted ==> projects == RemoveProject(old(projects), id) && tasks == ClearProject(old(tasks), id)
      ensures !deleted ==> projects == old(projects) && tasks == old(tasks)
      ensures State() == AfterDeleteProject(old(State()), id)
    {
      var changes := if HasProject(projects, id) then 1 else 0;
      if changes > 0 {
        RemoveProjectKeepsInvariants(projects, tasks, id, lastProjectId, lastTaskId);
        projects := RemoveProject(projects, id);
        tasks := ClearProject(tasks, id);
      }
      deleted := changes > 0;
    }
  }
}
