/**
 * The project store (src/stores/projectStore.ts): the project list and the
 * selected project, replaced by the actions after a backend call.
 */
module ProjectStore {
  import opened Wrappers
  import opened Types
  import opened ListOps
  import opened Rows
  import PS = ProjectSetClause
  import opened Database
  import opened Backend

  /** The projects `loadProjects` installs when the backend fails. */
  function SampleProjects(now: string): (r: seq<Project>)
    ensures |r| == 3
    ensures forall i :: 0 <= i < |r| ==> r[i].id == i + 1 && r[i].color.Some?
  {
    [ Project(1, "Personal Tasks", Some("#3b82f6"), now),
      Project(2, "Work Projects", Some("#10b981"), now),
      Project(3, "Home", Some("#f59e0b"), now) ]
  }

  /** `state.selectedProject?.id === id ? row : state.selectedProject`. */
  function SelectedAfterUpdate(sel: Option<Project>, id: int, row: Project): (r: Option<Project>)
    ensures sel.Some? && sel.value.id == id ==> r == Some(row)
    ensures !(sel.Some? && sel.value.id == id) ==> r == sel
  {
    if sel.Some? && sel.value.id == id then Some(row) else sel
  }

  /** `state.selectedProject?.id === id ? null : state.selectedProject`. */
  function SelectedAfterDelete(sel: Option<Project>, id: int): (r: Option<Project>)
    ensures r.None? <==> sel.None? || sel.value.id == id
    ensures r.Some? ==> r == sel
  {
    if sel.Some? && sel.value.id == id then None else sel
  }

  /** Removing by id keeps the order of the rest and drops exactly the entries with that id. */
  lemma RemoveProjectSpec(projects: seq<Project>, id: int)
    ensures Subseq(RemoveProject(projects, id), projects)
    ensures forall i :: 0 <= i < |projects| ==> (projects[i] in RemoveProject(projects, id) <==> projects[i].id != id)
    ensures forall i :: 0 <= i < |RemoveProject(projects, id)| ==> RemoveProject(projects, id)[i].id != id
  {
    FilterIsSubseq(projects, (p: Project) => p.id != id);
  }

  class ProjectStore {
    var projects: seq<Project>
    var selectedProject: Option<Project>

    constructor()
      ensures projects == [] && selectedProject == None
    {
      projects := [];
      selectedProject := None;
    }

    /** `loadProjects`: the fetched list, or the sample list when the call fails. */
    method LoadProjects(api: Backend, now: string)
      modifies this
      ensures projects == if api.reachable then api.db.GetProjects() else SampleProjects(now)
      ensures selectedProject == old(selectedProject)
    {
      var reply := api.GetProjects();
      if reply.Some? {
        projects := reply.value;
      } else {
        projects := SampleProjects(now);
      }
    }

    /** `createProject`: on an answer the new record goes to the end of the list; on a failure nothing changes. */
    method CreateProject(api: Backend, project: NewProject, now: string) returns (reply: Option<Project>)
      requires api.Valid()
      modifies this, api.db
      ensures api.Valid()
      ensures api.db.State() == if api.reachable then AfterCreateProject(old(api.db.State()), project, now)
                                else old(api.db.State())
      ensures reply.Some? <==> api.reachable
      ensures reply.Some? ==>
        && reply.value == Project(old(api.db.lastProjectId) + 1, project.name, StoredColor(project.color), now)
        && projects == old(projects) + [reply.value]
      ensures reply.None? ==> projects == old(projects)
      ensures selectedProject == old(selectedProject)
    {
      reply := api.CreateProject(project, now);
      if reply.Some? {
        projects := projects + [reply.value];
      }
    }

    /**
     * `updateProject`: on an answer every entry with that id, and the
     * selected project if it has that id, become the answered record; on a
     * failure nothing in the store changes.
     */
    method UpdateProject(api: Backend, id: int, updates: PS.Patch) returns (reply: Option<Project>)
      requires api.Valid()
      modifies this, api.db
      ensures api.Valid()
      ensures api.db.State() == if api.reachable then AfterUpdateProject(old(api.db.State()), id, updates)
                                else old(api.db.State())
      ensures reply.Some? <==> api.reachable && UpdateProjectSucceeds(old(api.db.State()), id, updates)
      ensures reply.Some? ==>
        && reply.value == PS.UpdatedProject(FindProject(old(api.db.projects), id).value, updates)
        && projects == ReplaceProject(old(projects), id, reply.value)
        && selectedProject == SelectedAfterUpdate(old(selectedProject), id, reply.value)
      ensures reply.None? ==> projects == old(projects) && selectedProject == old(selectedProject)
    {
      reply := api.UpdateProject(id, updates);
      if reply.Some? {
        projects := ReplaceProject(projects, id, reply.value);
        selectedProject := SelectedAfterUpdate(selectedProject, id, reply.value);
      }
    }

    /**
     * `deleteProject`: once the call answers, the entries with that id leave
     * the list and the selected project is cleared if it has that id; on a
     * failure nothing changes. The table loses the row and its tasks lose
     * the project; the task store is not touched.
     */
    method DeleteProject(api: Backend, id: int) returns (reply: Option<bool>)
      requires api.Valid()
      modifies this, api.db
      ensures api.Valid()
      ensures api.db.State() == if api.reachable then AfterDeleteProject(old(api.db.State()), id) else old(api.db.State())
      ensures reply == if api.reachable then Some(HasProject(old(api.db.projects), id)) else None
      ensures reply.Some? ==>
        projects == RemoveProject(old(projects), id) && selectedProject == SelectedAfterDelete(old(selectedProject), id)
      ensures reply.None? ==> projects == old(projects) && selectedProject == old(selectedProject)
    {
      reply := api.DeleteProject(id);
      if reply.Some? {
        projects := RemoveProject(projects, id);
        selectedProject := SelectedAfterDelete(selectedProject, id);
      }
    }

    method SetSelectedProject(project: Option<Project>)
      modifies this
      ensures selectedProject == project && projects == old(projects)
    {
      selectedProject := project;
    }
  }
}
