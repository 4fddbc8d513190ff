/** The application state and its transitions: the task list, the task being
    edited, and the pending delete, changed by the handlers the app hands to
    its components; then the whole screen as one state machine driven by user
    events, and the invariants it keeps. */
module App {
  import opened Wrappers
  import opened Text
  import opened Types
  import opened Store
  import Board
  import TaskItem
  import EditModal
  import AddForm

  /** The delete confirmation: nothing pending, or the id awaiting
      confirmation (`deletingTaskId`, null or a string). */
  datatype DeleteState = Idle | PendingDelete(id: string)

  datatype AppState = AppState(tasks: seq<Task>, editing: Option<Task>, deleting: DeleteState)

  const Initial := AppState([], None, Idle)

  /** The app tests the pending id for truthiness, so a pending empty id
      neither opens the confirmation dialog nor lets a confirm delete. */
  predicate ConfirmOpen(d: DeleteState) {
    d.PendingDelete? && d.id != ""
  }

  /** `handleAddTask`: the new task, under the id it is given, goes in front;
      the old tasks follow in their order. */
  function AddTask(st: AppState, d: Draft, id: string): (r: AppState)
    ensures |r.tasks| == |st.tasks| + 1
    ensures r.tasks[0] == Task(id, d.title, d.description, d.status)
    ensures r.tasks[1..] == st.tasks
    ensures r.editing == st.editing && r.deleting == st.deleting
  {
    st.(tasks := [Task(id, d.title, d.description, d.status)] + st.tasks)
  }

  /** `handleUpdateTask`: the update replaces every entry with its id, and
      ends the edit session when it is about the task being edited. */
  function UpdateTask(st: AppState, u: Task): (r: AppState)
    ensures r.tasks == Replace(st.tasks, u)
    ensures st.editing.Some? && st.editing.value.id == u.id ==> r.editing.None?
    ensures !(st.editing.Some? && st.editing.value.id == u.id) ==> r.editing == st.editing
    ensures r.deleting == st.deleting
  {
    var editing := if st.editing.Some? && st.editing.value.id == u.id then None else st.editing;
    AppState(Replace(st.tasks, u), editing, st.deleting)
  }

  /** `handleDeleteTask`: only records the id awaiting confirmation,
      replacing any earlier one. */
  function RequestDelete(st: AppState, id: string): (r: AppState)
    ensures r.deleting == PendingDelete(id)
    ensures r.tasks == st.tasks && r.editing == st.editing
  {
    st.(deleting := PendingDelete(id))
  }

  /** `confirmDelete`: with a pending id, removes exactly the entries with
      that id, keeps the others, and clears the pending delete; without one,
      changes nothing. */
  function ConfirmDelete(st: AppState): (r: AppState)
    ensures ConfirmOpen(st.deleting) ==>
      && r.tasks == RemoveId(st.tasks, st.deleting.id)
      && (forall t :: t in r.tasks <==> t in st.tasks && t.id != st.deleting.id)
      && r.deleting == Idle
      && r.editing == st.editing
    ensures !ConfirmOpen(st.deleting) ==> r == st
  {
    if ConfirmOpen(st.deleting) then
      st.(tasks := RemoveId(st.tasks, st.deleting.id), deleting := Idle)
    else
      st
  }

  /** The confirmation dialog's close: drops the pending delete, keeps the
      tasks. */
  function CancelDelete(st: AppState): (r: AppState)
    ensures r.deleting == Idle
    ensures r.tasks == st.tasks && r.editing == st.editing
  {
    st.(deleting := Idle)
  }

  /** `handleEditTask`: opens an edit session on this task. */
  function EditTask(st: AppState, t: Task): (r: AppState)
    ensures r.editing == Some(t)
    ensures r.tasks == st.tasks && r.deleting == st.deleting
  {
    st.(editing := Some(t))
  }

  /** The edit dialog's close: ends the session, keeps the tasks. */
  function CloseEdit(st: AppState): (r: AppState)
    ensures r.editing.None?
    ensures r.tasks == st.tasks && r.deleting == st.deleting
  {
    st.(editing := None)
  }

  /** Updating twice with the same task is updating once. */
  lemma UpdateIdempotent(st: AppState, u: Task)
    ensures UpdateTask(UpdateTask(st, u), u) == UpdateTask(st, u)
  {
    ReplaceIdempotent(st.tasks, u);
  }

  /** An update for an id no task has leaves the task list alone. */
  lemma UpdateUnknownId(st: AppState, u: Task)
    requires u.id !in Ids(st.tasks)
    ensures UpdateTask(st, u).tasks == st.tasks
  {
    ReplaceNoMatch(st.tasks, u);
  }

  /** Adding a task under a fresh id and then deleting that id gives back the
      original list. */
  lemma AddThenDelete(st: AppState, d: Draft, id: string)
    requires id != "" && id !in Ids(st.tasks)
    ensures ConfirmDelete(RequestDelete(AddTask(st, d, id), id)).tasks == st.tasks
  {
    var added := AddTask(st, d, id);
    RemoveIdSplits([added.tasks[0]], st.tasks, id);
    RemoveIdNoMatch(st.tasks, id);
    assert added.tasks == [added.tasks[0]] + st.tasks;
  }

  /** A delete takes effect only through a confirm: the request alone keeps
      the tasks, a confirm after it removes the requested id (unless the id is
      empty, which the app treats as no request), and a cancel after it
      restores the idle state with the tasks untouched. */
  lemma DeleteNeedsConfirmation(st: AppState, id: string)
    ensures RequestDelete(st, id).tasks == st.tasks
    ensures id != "" ==> ConfirmDelete(RequestDelete(st, id)) == AppState(RemoveId(st.tasks, id), st.editing, Idle)
    ensures id == "" ==> ConfirmDelete(RequestDelete(st, id)).tasks == st.tasks
    ensures CancelDelete(RequestDelete(st, id)) == st.(deleting := Idle)
  {
  }

  /** A later delete request replaces an earlier one. */
  lemma LatestRequestWins(st: AppState, a: string, b: string)
    ensures RequestDelete(RequestDelete(st, a), b) == RequestDelete(st, b)
  {
  }

  // ---------------------------------------------------------------------
  // The whole screen

  /** Everything the screen holds: the app state and the two forms' fields. */
  datatype Ui = Ui(app: AppState, addForm: AddForm.Form, editForm: EditModal.EditForm)

  const InitialUi := Ui(Initial, AddForm.EmptyForm, EditModal.InitialForm)

  /** The user's actions. Closing a dialog (its Cancel button, its close
      button or a click on the overlay) is one event per dialog. A submit
      carries the id the app stamps on the new task, and a suggestion request
      carries what the suggestion service answers. */
  datatype Event =
    | AddTitleTyped(text: string)
    | AddDescriptionTyped(text: string)
    | AddSubmitted(newId: string)
    | SuggestClicked(suggestions: seq<string>)
    | OnItem(task: Task, action: TaskItem.Action)
    | EditTitleTyped(text: string)
    | EditDescriptionTyped(text: string)
    | EditStatusPicked(value: string)
    | EditSaved
    | EditClosed
    | DeleteConfirmed
    | DeleteClosed

  /** A status select only ever submits one of its option values, and a card's
      select reports a pick only when it differs from the card's status (a
      select fires no change event for the option already selected). */
  predicate Enabled(e: Event) {
    && (e.OnItem? && e.action.StatusPicked? ==>
          e.action.value in OptionValues() && e.action.value != Label(e.task.status))
    && (e.EditStatusPicked? ==> e.value in OptionValues())
  }

  /** The events that may change the task list. */
  predicate TouchesTasks(e: Event) {
    e.AddSubmitted? || (e.OnItem? && e.action.StatusPicked?) || e.EditSaved? || e.DeleteConfirmed?
  }

  /** Hands a card's intent to the app handler it is wired to: an edit intent
      only opens a session on its task, a delete intent only records its id as
      pending, and an update rewrites the entries with its id, keeps the
      pending delete, and ends the edit session when it is about the task
      being edited. */
  function Deliver(st: AppState, i: TaskItem.Intent): (r: AppState)
    ensures i.OpenEdit? ==> r == st.(editing := Some(i.task))
    ensures i.RequestDelete? ==> r == st.(deleting := PendingDelete(i.id))
    ensures i.Update? ==> r.tasks == Replace(st.tasks, i.task) && r.deleting == st.deleting
    ensures i.Update? ==>
      r.editing == (if st.editing.Some? && st.editing.value.id == i.task.id then None else st.editing)
  {
    match i
    case OpenEdit(t) => EditTask(st, t)
    case RequestDelete(id) => RequestDelete(st, id)
    case Update(t) => UpdateTask(st, t)
  }

  /** A card's edit button opens a session on exactly that card's task, and its
      delete button marks exactly that task's id for confirmation; neither
      touches anything else. */
  lemma CardButtons(st: AppState, t: Task)
    ensures Deliver(st, TaskItem.Dispatch(t, TaskItem.EditClicked)) == st.(editing := Some(t))
    ensures Deliver(st, TaskItem.Dispatch(t, TaskItem.DeleteClicked)) == st.(deleting := PendingDelete(t.id))
  {
  }

  /** The handlers' effect on the screen before the edit dialog's prefill
      effect runs. */
  function Handle(ui: Ui, e: Event): (r: Ui)
    requires Enabled(e)
    ensures !TouchesTasks(e) ==> r.app.tasks == ui.app.tasks
    ensures |r.app.tasks| <= |ui.app.tasks| + 1
  {
    match e
    case AddTitleTyped(x) => ui.(addForm := ui.addForm.(title := x))
    case AddDescriptionTyped(x) => ui.(addForm := ui.addForm.(description := x))
    case AddSubmitted(id) =>
      var sub := AddForm.Submit(ui.addForm);
      var app := if sub.draft.Some? then AddTask(ui.app, sub.draft.value, id) else ui.app;
      ui.(app := app, addForm := sub.form)
    case SuggestClicked(subs) => ui.(addForm := AddForm.Suggest(ui.addForm, subs))
    case OnItem(t, a) => ui.(app := Deliver(ui.app, TaskItem.Dispatch(t, a)))
    case EditTitleTyped(x) => ui.(editForm := ui.editForm.(title := x))
    case EditDescriptionTyped(x) => ui.(editForm := ui.editForm.(description := x))
    case EditStatusPicked(v) => ui.(editForm := ui.editForm.(status := ParseStatus(v).value))
    case EditSaved =>
      (match EditModal.Save(ui.editForm, ui.app.editing)
       case None => ui
       case Some(u) => ui.(app := CloseEdit(UpdateTask(ui.app, u))))
    case EditClosed => ui.(app := CloseEdit(ui.app))
    case DeleteConfirmed => ui.(app := ConfirmDelete(ui.app))
    case DeleteClosed => ui.(app := CancelDelete(ui.app))
  }

  /** One user event: the handlers run, then, when the edited task changed,
      the edit dialog's prefill effect. Only submits, status picks, edit saves
      and delete confirms change the task list, and by at most one task more. */
  function Step(ui: Ui, e: Event): (r: Ui)
    requires Enabled(e)
    ensures !TouchesTasks(e) ==> r.app.tasks == ui.app.tasks
    ensures |r.app.tasks| <= |ui.app.tasks| + 1
    ensures r.app == Handle(ui, e).app
    ensures r.addForm == Handle(ui, e).addForm
    ensures r.app.editing == ui.app.editing ==> r.editForm == Handle(ui, e).editForm
    ensures r.app.editing != ui.app.editing && r.app.editing.Some? ==>
      var t := r.app.editing.value;
      r.editForm == EditModal.EditForm(t.title, t.description, t.status)
    ensures r.app.editing.None? ==> r.editForm == Handle(ui, e).editForm
  {
    var next := Handle(ui, e);
    if next.app.editing != ui.app.editing then
      next.(editForm := EditModal.Prefill(next.editForm, next.app.editing))
    else
      next
  }

  /** The invariant the screen keeps: ids are unique and no stored title is
      blank. */
  predicate Valid(ui: Ui) {
    && UniqueIds(ui.app.tasks)
    && forall t :: t in ui.app.tasks ==> !IsBlank(t.title)
  }

  lemma InitialValid()
    ensures Valid(InitialUi)
  {
  }

  /** Every event keeps the invariant, provided the id stamped on a new task
      is fresh and a card event comes from a card of the board (the app
      itself does not check either). */
  lemma StepKeepsValid(ui: Ui, e: Event)
    requires Valid(ui) && Enabled(e)
    requires e.AddSubmitted? ==> e.newId !in Ids(ui.app.tasks)
    requires e.OnItem? ==> e.task in ui.app.tasks
    ensures Valid(Step(ui, e))
  {
    var ts := ui.app.tasks;
    var r := Step(ui, e).app.tasks;
    match e
    case AddSubmitted(id) =>
      var sub := AddForm.Submit(ui.addForm);
      if sub.draft.Some? {
        var t := Task(id, sub.draft.value.title, sub.draft.value.description, sub.draft.value.status);
        assert r == [t] + ts;
        PrependKeepsUnique(ts, t);
      }
    case OnItem(t, a) =>
      if a.StatusPicked? {
        var u := TaskItem.Dispatch(t, a).task;
        ReplaceKeepsIds(ts, u);
        ReplaceMembers(ts, u);
      }
    case EditSaved =>
      var saved := EditModal.Save(ui.editForm, ui.app.editing);
      if saved.Some? {
        ReplaceKeepsIds(ts, saved.value);
        ReplaceMembers(ts, saved.value);
      }
    case DeleteConfirmed =>
      if ConfirmOpen(ui.app.deleting) {
        RemoveIdKeepsUnique(ts, ui.app.deleting.id);
      }
    case _ =>
  }

  /** A submit with a blank title changes nothing on the screen; any other
      submit puts a To Do task with the form's untrimmed title and
      description, under the given id, in front of the list and empties the
      form. */
  lemma SubmitAdds(ui: Ui, id: string)
    ensures IsBlank(ui.addForm.title) ==> Step(ui, AddSubmitted(id)) == ui
    ensures !IsBlank(ui.addForm.title) ==>
      && Step(ui, AddSubmitted(id)).app.tasks == [Task(id, ui.addForm.title, ui.addForm.description, ToDo)] + ui.app.tasks
      && Step(ui, AddSubmitted(id)).addForm == AddForm.EmptyForm
  {
  }

  /** Opening a card's edit session prefills the dialog with that task. */
  lemma OpenEditPrefills(ui: Ui, t: Task)
    requires ui.app.editing != Some(t)
    ensures Step(ui, OnItem(t, TaskItem.EditClicked)).app.editing == Some(t)
    ensures Step(ui, OnItem(t, TaskItem.EditClicked)).editForm == EditModal.EditForm(t.title, t.description, t.status)
  {
  }

  /** Saving with a blank title, or with no session open, does nothing. */
  lemma SaveRefused(ui: Ui)
    requires IsBlank(ui.editForm.title) || ui.app.editing.None?
    ensures Step(ui, EditSaved) == ui
  {
  }

  /** A successful save writes the edited task (its own id, the form's
      fields) over the stored one and ends the session; closing the dialog
      instead ends the session and writes nothing. */
  lemma SaveAndClose(ui: Ui)
    requires ui.app.editing.Some?
    ensures !IsBlank(ui.editForm.title) ==>
      var t := ui.app.editing.value;
      var u := Task(t.id, ui.editForm.title, ui.editForm.description, ui.editForm.status);
      Step(ui, EditSaved).app == AppState(Replace(ui.app.tasks, u), None, ui.app.deleting)
    ensures Step(ui, EditClosed).app == AppState(ui.app.tasks, None, ui.app.deleting)
  {
  }

  /** A status pick on a card of the board moves that task into the picked
      column: it shows up there with its new status and its id appears in no
      other column. */
  lemma StatusPickMovesColumn(ui: Ui, t: Task, v: string)
    requires t in ui.app.tasks && v in OptionValues() && v != Label(t.status)
    ensures var s := ParseStatus(v).value;
      var ts := Step(ui, OnItem(t, TaskItem.StatusPicked(v))).app.tasks;
      && TaskItem.WithStatus(t, s) in Board.Column(ts, s)
      && forall s', x :: s' != s && x in Board.Column(ts, s') ==> x.id != t.id
  {
    var s := ParseStatus(v).value;
    var u := TaskItem.WithStatus(t, s);
    var ts := Step(ui, OnItem(t, TaskItem.StatusPicked(v))).app.tasks;
    assert ts == Replace(ui.app.tasks, u);
    var i :| 0 <= i < |ui.app.tasks| && ui.app.tasks[i] == t;
    assert ts[i] == u;
    ReplaceMembers(ui.app.tasks, u);
  }
}
