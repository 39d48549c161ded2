/**
 * The project list in the sidebar (src/components/project/ProjectList.tsx):
 * one entry per project with a count of its open tasks, and the filter
 * patch a click passes to the task store's `setFilter`.
 */
module ProjectList {
  import opened Wrappers
  import opened Types
  import opened ListOps
  import opened TaskStore
  import Sidebar

  /** A task of the project that is not completed. */
  function OpenIn(projectId: int): Task -> bool {
    (t: Task) => t.projectId == Some(projectId) && t.status != Completed
  }

  /** `getProjectTaskCount`. */
  function ProjectTaskCount(tasks: seq<Task>, projectId: int): nat {
    |Filter(tasks, OpenIn(projectId))|
  }

  /**
   * A project's count is the sidebar's 'project' count less the project's
   * completed tasks.
   */
  lemma ProjectCountExcludesCompleted(tasks: seq<Task>, projectId: int, today: string)
    ensures ProjectTaskCount(tasks, projectId) + |Filter(tasks, (t: Task) => t.projectId == Some(projectId) && t.status == Completed)|
      == Sidebar.TaskCount(tasks, "project", Some(projectId), today)
  {
    FilterSplitCounts(tasks, Sidebar.CountTest("project", Some(projectId), today), OpenIn(projectId),
      (t: Task) => t.projectId == Some(projectId) && t.status == Completed);
  }

  /** The badge appears exactly when the project has a task that is not completed. */
  lemma BadgeIffOpenTask(tasks: seq<Task>, projectId: int)
    ensures Sidebar.ShowsCount(ProjectTaskCount(tasks, projectId)) <==>
      exists i :: 0 <= i < |tasks| && tasks[i].projectId == Some(projectId) && tasks[i].status != Completed
  {
    FilterNonEmpty(tasks, OpenIn(projectId));
  }

  /** An entry of the list: the project and the count beside it. */
  datatype Entry = Entry(project: Project, count: nat)

  /** `projects.map(...)`: one entry per project, in store order. */
  function Entries(projects: seq<Project>, tasks: seq<Task>): (r: seq<Entry>)
    ensures |r| == |projects|
    ensures forall i :: 0 <= i < |r| ==> r[i].project == projects[i]
    ensures forall i :: 0 <= i < |r| ==> r[i].count == ProjectTaskCount(tasks, projects[i].id)
  {
    seq(|projects|, i requires 0 <= i < |projects| => Entry(projects[i], ProjectTaskCount(tasks, projects[i].id)))
  }

  /** `handleProjectClick`: the project, and every status. */
  function ProjectClickPatch(projectId: int): FilterPatch {
    FilterPatch(Some("all"), None, Some(Some(projectId)), None)
  }

  /**
   * Merged through `setFilter`, a click selects the project and every
   * status and keeps priority and search; the list then shows exactly the
   * project's tasks that pass the priority and search checks.
   */
  lemma ProjectClickEffect(f: TaskFilter, projectId: int, t: Task)
    ensures var g := MergeFilter(f, ProjectClickPatch(projectId));
      && g == f.(status := "all", projectId := Some(projectId))
      && (Matches(g, t) <==> t.projectId == Some(projectId) && PriorityCheck(f, t) && SearchCheck(f, t))
  {
    MergeFilterFields(f, ProjectClickPatch(projectId));
  }
}
