/**
 * The new-project dialog (src/components/project/AddProjectDialog.tsx):
 * the name and colour form, the payload its submit handler passes to the
 * project store's `createProject`, and the reset that follows.
 */
module AddProjectDialog {
  import opened Wrappers
  import opened Types
  import opened Text
  import opened Database
  import opened Backend
  import opened ProjectStore

  /** The ten swatches the colour picker offers, blue first. */
  const ColorOptions: seq<string> := [
    "#3b82f6", "#10b981", "#f59e0b", "#ef4444", "#8b5cf6",
    "#f97316", "#06b6d4", "#84cc16", "#ec4899", "#6b7280"]

  /** A colour the form can hold: one of the swatches. */
  type Swatch = c: string | c in ColorOptions witness "#3b82f6"

  datatype ProjectForm = ProjectForm(name: string, color: Swatch)

  /** The form as the dialog opens and as it is reset: no name, the first swatch. */
  const InitialProjectForm := ProjectForm("", "#3b82f6")

  /** The payload (lines 24-27), or None when the name is empty after trimming. */
  function NewProjectPayload(form: ProjectForm): Option<NewProject> {
    if Trim(form.name) == "" then None
    else Some(NewProject(Trim(form.name), Some(form.color)))
  }

  /** A name of white space only creates nothing. */
  lemma PayloadGuard(form: ProjectForm)
    ensures NewProjectPayload(form).None? <==> AllSpace(form.name)
  {
    TrimEmptyIffAllSpace(form.name);
  }

  /**
   * The project the database then stores has the trimmed name and exactly
   * the chosen colour: a swatch is never empty, so the default colour never
   * replaces it.
   */
  lemma PayloadThenInsert(form: ProjectForm)
    requires !AllSpace(form.name)
    ensures NewProjectPayload(form).Some?
    ensures NewProjectPayload(form).value.name == Trim(form.name)
    ensures StoredColor(NewProjectPayload(form).value.color) == Some(form.color)
  {
    PayloadGuard(form);
    assert form.color != "";
  }

  /** The dialog's form state and its handlers. */
  class AddProjectDialog {
    var formData: ProjectForm

    constructor()
      ensures formData == InitialProjectForm
    {
      formData := InitialProjectForm;
    }

    method SetName(name: string)
      modifies this
      ensures formData == old(formData).(name := name)
    {
      formData := formData.(name := name);
    }

    /** A swatch's click handler: the colour changes, the name does not. */
    method ChooseColor(color: Swatch)
      modifies this
      ensures formData.color == color && formData.name == old(formData).name
    {
      formData := formData.(color := color);
    }

    /**
     * `handleSubmit`: with a name, passes the payload to the store and
     * resets the form whatever the store's outcome; without one, does
     * nothing. Returns the payload sent and the store's answer.
     */
    method HandleSubmit(store: ProjectStore, api: Backend, now: string) returns (sent: Option<NewProject>, reply: Option<Project>)
      requires api.Valid()
      modifies this, store, api.db
      ensures api.Valid()
      ensures sent == NewProjectPayload(old(formData))
      ensures sent.None? ==> formData == old(formData) && reply.None? && unchanged(store) && unchanged(api.db)
      ensures sent.Some? ==>
        && formData == InitialProjectForm
        && api.db.State() == (if api.reachable then AfterCreateProject(old(api.db.State()), sent.value, now)
                              else old(api.db.State()))
        && (reply.Some? <==> api.reachable)
      ensures reply.Some? ==>
        && sent.Some?
        && reply.value == Project(old(api.db.lastProjectId) + 1, Trim(old(formData).name), Some(old(formData).color), now)
        && store.projects == old(store.projects) + [reply.value]
      ensures reply.None? ==> store.projects == old(store.projects)
      ensures store.selectedProject == old(store.selectedProject)
    {
      sent := NewProjectPayload(formData);
      reply := None;
      if sent.Some? {
        PayloadGuard(formData);
        PayloadThenInsert(formData);
        reply := store.CreateProject(api, sent.value, now);
        formData := InitialProjectForm;
      }
    }
  }
}
