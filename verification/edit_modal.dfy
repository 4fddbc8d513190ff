/** The edit dialog: a form prefilled from the task being edited, and a save
    that emits the edited task only when the title is not blank. */
module EditModal {
  import opened Wrappers
  import opened Text
  import opened Types

  /** The dialog's local fields. */
  datatype EditForm = EditForm(title: string, description: string, status: Status)

  /** The fields before any task was opened. */
  const InitialForm := EditForm("", "", ToDo)

  /** The prefill effect that runs when the edited task changes: with a task,
      the fields take its title, description and status; without one they
      keep whatever they held. */
  function Prefill(f: EditForm, task: Option<Task>): (r: EditForm)
    ensures task.Some? ==>
      r.title == task.value.title && r.description == task.value.description && r.status == task.value.status
    ensures task.None? ==> r == f
  {
    match task
    case Some(t) => EditForm(t.title, t.description, t.status)
    case None => f
  }

  /** `handleSave`: with a task open and a title that is not blank, emits the
      task under its own id with the form's fields, title untrimmed; emits
      nothing otherwise. Emitting is also what closes the dialog. */
  function Save(f: EditForm, task: Option<Task>): (r: Option<Task>)
    ensures r.Some? <==> task.Some? && !IsBlank(f.title)
    ensures r.Some? ==>
      && r.value.id == task.value.id
      && r.value.title == f.title
      && r.value.description == f.description
      && r.value.status == f.status
  {
    if task.Some? && Trim(f.title) != "" then
      Some(task.value.(title := f.title, description := f.description, status := f.status))
    else
      None
  }

  /** Opening a task and saving without touching the fields emits the task
      unchanged. */
  lemma SaveAfterPrefill(f: EditForm, t: Task)
    requires !IsBlank(t.title)
    ensures Save(Prefill(f, Some(t)), Some(t)) == Some(t)
  {
  }
}
