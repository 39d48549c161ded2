/**
 * The records the application stores and exchanges: `Task` and `Project` as
 * they come back from the database (snake_case columns aliased to camelCase),
 * and the payloads that create them.
 */
module Types {
  import opened Wrappers

  /** `'pending' | 'in_progress' | 'completed'`. */
  datatype Status = Pending | InProgress | Completed

  /** The text stored in the `status` column. */
  function StatusText(s: Status): string {
    match s
    case Pending => "pending"
    case InProgress => "in_progress"
    case Completed => "completed"
  }

  /** 0: Low, 1: Medium, 2: High, 3: Urgent. */
  type Priority = p: int | 0 <= p <= 3

  /**
   * A row of the `tasks` table. Timestamps are the text SQLite stores; the
   * optional columns are None when they hold NULL.
   */
  datatype Task = Task(
    id: int,
    title: string,
    description: Option<string>,
    projectId: Option<int>,
    priority: Priority,
    status: Status,
    dueDate: Option<string>,
    createdAt: string,
    updatedAt: string,
    completedAt: Option<string>,
    parentTaskId: Option<int>)

  /** A row of the `projects` table. */
  datatype Project = Project(id: int, name: string, color: Option<string>, createdAt: string)

  /** `Omit<Task, 'id' | 'createdAt' | 'updatedAt'>`: the fields `createTask` reads. */
  datatype NewTask = NewTask(
    title: string,
    description: Option<string>,
    projectId: Option<int>,
    priority: Priority,
    status: Status,
    dueDate: Option<string>,
    parentTaskId: Option<int>)

  /** `Omit<Project, 'id' | 'createdAt'>`. */
  datatype NewProject = NewProject(name: string, color: Option<string>)

  /** JavaScript truthiness of an optional text: present and not ''. */
  predicate TextTruthy(o: Option<string>) {
    o.Some? && o.value != ""
  }

  /** JavaScript truthiness of an optional number: present and not 0. */
  predicate IdTruthy(o: Option<int>) {
    o.Some? && o.value != 0
  }

  /** `value || null` on a text: '' and absent both become NULL. */
  function TextOrNull(o: Option<string>): (r: Option<string>)
    ensures r.Some? <==> TextTruthy(o)
    ensures r.Some? ==> r == o
  {
    if TextTruthy(o) then o else None
  }

  /** `value || null` on a number: 0 and absent both become NULL. */
  function IdOrNull(o: Option<int>): (r: Option<int>)
    ensures r.Some? <==> IdTruthy(o)
    ensures r.Some? ==> r == o
  {
    if IdTruthy(o) then o else None
  }
}
