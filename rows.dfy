/**
 * The id-directed list transforms that both the database tables and the
 * client stores apply: replace the entries with an id, remove the entries
 * with an id.
 */
module Rows {
  import opened Types
  import opened ListOps

  /** `tasks.map(t => t.id === id ? row : t)`. */
  function ReplaceTask(tasks: seq<Task>, id: int, row: Task): (r: seq<Task>)
    ensures |r| == |tasks|
    ensures forall i :: 0 <= i < |tasks| ==> r[i] == if tasks[i].id == id then row else tasks[i]
  {
    ReplaceWhere(tasks, (t: Task) => t.id == id, row)
  }

  /** `projects.map(p => p.id === id ? row : p)`. */
  function ReplaceProject(projects: seq<Project>, id: int, row: Project): (r: seq<Project>)
    ensures |r| == |projects|
    ensures forall i :: 0 <= i < |projects| ==> r[i] == if projects[i].id == id then row else projects[i]
  {
    ReplaceWhere(projects, (p: Project) => p.id == id, row)
  }

  /** `tasks.filter(t => t.id !== id)`. */
  function RemoveTask(tasks: seq<Task>, id: int): (r: seq<Task>)
    ensures |r| <= |tasks|
    ensures forall i :: 0 <= i < |r| ==> r[i] in tasks && r[i].id != id
    ensures forall i :: 0 <= i < |tasks| && tasks[i].id != id ==> tasks[i] in r
  {
    Filter(tasks, (t: Task) => t.id != id)
  }

  /** `projects.filter(p => p.id !== id)`. */
  function RemoveProject(projects: seq<Project>, id: int): (r: seq<Project>)
    ensures |r| <= |projects|
    ensures forall i :: 0 <= i < |r| ==> r[i] in projects && r[i].id != id
    ensures forall i :: 0 <= i < |projects| && projects[i].id != id ==> projects[i] in r
  {
    Filter(projects, (p: Project) => p.id != id)
  }
}
