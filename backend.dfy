/**
 * The bridge the stores call (`window.electronAPI`): each call runs the
 * matching `DatabaseService` operation in the main process and either
 * answers or fails. A call fails when the bridge is not reachable (no main
 * process, no preload) or when the statement throws.
 */
module Backend {
  import opened Wrappers
  import opened Types
  import opened Rows
  import opened SetClause
  import PS = ProjectSetClause
  import opened Database

  class Backend {
    const db: DatabaseService
    /** Whether calls reach the main process at all. */
    const reachable: bool

    constructor(db: DatabaseService, reachable: bool)
      ensures this.db == db && this.reachable == reachable
    {
      this.db := db;
      this.reachable := reachable;
    }

    predicate Valid()
      reads this, db
    {
      db.Valid()
    }

    /** `getTasks`: the tables in query order, or a failure. */
    method GetTasks() returns (reply: Option<seq<Task>>)
      ensures reply == if reachable then Some(db.GetTasks()) else None
    {
      reply := if reachable then Some(db.GetTasks()) else None;
    }

    method GetProjects() returns (reply: Option<seq<Project>>)
      ensures reply == if reachable then Some(db.GetProjects()) else None
    {
      reply := if reachable then Some(db.GetProjects()) else None;
    }

    /**
     * `createTask`: the inserted row, or a failure. A reached call leaves
     * the tables as the statement does; an unreached one leaves them alone.
     */
    method CreateTask(task: NewTask, now: string) returns (reply: Option<Task>)
      requires Valid()
      modifies db
      ensures Valid()
      ensures db.State() == if reachable then AfterCreateTask(old(db.State()), task, now) else old(db.State())
      ensures reply.Some? <==> reachable && CreateTaskSucceeds(old(db.State()), task, now)
      ensures reply.Some? ==> reply.value == InsertedTask(task, old(db.lastTaskId) + 1, now)
    {
      if !reachable {
        return None;
      }
      var r := db.CreateTask(task, now);
      reply := if r.Ok? then Some(r.value) else None;
    }

    /**
     * `updateTask`: the updated row, or a failure. The `undefined` answer
     * for an id with no row is read as a failure here.
     */
    method UpdateTask(id: int, updates: TaskPatch, now: string) returns (reply: Option<Task>)
      requires Valid()
      modifies db
      ensures Valid()
      ensures db.State() == if reachable then AfterUpdateTask(old(db.State()), id, updates, now) else old(db.State())
      ensures reply.Some? <==> reachable && UpdateTaskSucceeds(old(db.State()), id, updates, now)
      ensures reply.Some? ==> reply.value == UpdatedRow(FindTask(old(db.tasks), id).value, updates, now)
    {
      if !reachable {
        return None;
      }
      var r := db.UpdateTask(id, updates, now);
      reply := if r.Ok? then r.value else None;
    }

    /** `deleteTask`: whether the row existed; the call itself only fails when unreachable. */
    method DeleteTask(id: int) returns (reply: Option<bool>)
      requires Valid()
      modifies db
      ensures Valid()
      ensures db.State() == if reachable then AfterDeleteTask(old(db.State()), id) else old(db.State())
      ensures reply == if reachable then Some(HasTask(old(db.tasks), id)) else None
    {
      if !reachable {
        return None;
      }
      var deleted := db.DeleteTask(id);
      reply := Some(deleted);
    }

    /** `createProject`: the inserted row; it cannot fail once reached. */
    method CreateProject(project: NewProject, now: string) returns (reply: Option<Project>)
      requires Valid()
      modifies db
      ensures Valid()
      ensures db.State() == if reachable then AfterCreateProject(old(db.State()), project, now) else old(db.State())
      ensures reply == if reachable then Some(Project(old(db.lastProjectId) + 1, project.name, StoredColor(project.color), now))
                       else None
    {
      if !reachable {
        return None;
      }
      var p := db.CreateProject(project, now);
      reply := Some(p);
    }

    /** `updateProject`: the updated row; an empty SET list or an unknown id is a failure here. */
    method UpdateProject(id: int, updates: PS.Patch) returns (reply: Option<Project>)
      requires Valid()
      modifies db
      ensures Valid()
      ensures db.State() == if reachable then AfterUpdateProject(old(db.State()), id, updates) else old(db.State())
      ensures reply.Some? <==> reachable && UpdateProjectSucceeds(old(db.State()), id, updates)
      ensures reply.Some? ==> reply.value == PS.UpdatedProject(FindProject(old(db.projects), id).value, updates)
    {
      if !reachable {
        return None;
      }
      var r := db.UpdateProject(id, updates);
      reply := if r.Ok? then r.value else None;
    }

    /**
     * `deleteProject`: whether the row existed; the call itself only fails
     * when unreachable. A reached call removes the row and sets its tasks'
     * project to NULL.
     */
    method DeleteProject(id: int) returns (reply: Option<bool>)
      requires Valid()
      modifies db
      ensures Valid()
      ensures db.State() == if reachable then AfterDeleteProject(old(db.State()), id) else old(db.State())
      ensures reply == if reachable then Some(HasProject(old(db.projects), id)) else None
    {
      if !reachable {
        return None;
      }
      var deleted := db.DeleteProject(id);
      reply := Some(deleted);
    }
  }
}
