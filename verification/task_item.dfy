/** One task card: its edit and delete buttons and its status select, each of
    which hands an intent carrying this task up to the app. */
module TaskItem {
  import opened Types

  /** The intents a card dispatches to the app. */
  datatype Intent =
    | OpenEdit(task: Task)
    | RequestDelete(id: string)
    | Update(task: Task)

  /** What the user does on a card. A status pick carries the value of the
      chosen select option. */
  datatype Action = EditClicked | DeleteClicked | StatusPicked(value: string)

  /** `{ ...task, status: newStatus }`: the same task in another status. */
  function WithStatus(t: Task, s: Status): (r: Task)
    ensures r.status == s
    ensures r.id == t.id && r.title == t.title && r.description == t.description
  {
    t.(status := s)
  }

  /** The intent a card action dispatches. A select only submits one of its
      option values, so a picked status is always one of `Statuses`. */
  function Dispatch(t: Task, a: Action): (r: Intent)
    requires a.StatusPicked? ==> a.value in OptionValues()
    ensures a == EditClicked ==> r == OpenEdit(t)
    ensures a == DeleteClicked ==> r == RequestDelete(t.id)
    ensures a.StatusPicked? ==>
      && r.Update?
      && r.task.status in Statuses
      && Label(r.task.status) == a.value
      && r.task == WithStatus(t, r.task.status)
  {
    match a
    case EditClicked => OpenEdit(t)
    case DeleteClicked => RequestDelete(t.id)
    case StatusPicked(v) =>
      var s := ParseStatus(v).value;
      StatusesEnumerate(s);
      Update(WithStatus(t, s))
  }
}
