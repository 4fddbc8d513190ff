/** The board's data model: the three task statuses with their display
    strings, the fixed column order, and the task record. */
module Types {
  import opened Wrappers

  datatype Status = ToDo | InProgress | Done

  /** The display string each status carries; it is also the value a status
      select option submits and the string a task's status is stored as. */
  function Label(s: Status): string
  {
    match s
    case ToDo => "To Do"
    case InProgress => "In Progress"
    case Done => "Done"
  }

  /** Reads a display string back as a status; strings that are not one of
      the three labels denote no status. */
  function ParseStatus(v: string): (r: Option<Status>)
    ensures r.Some? <==> v in OptionValues()
    ensures r.Some? ==> Label(r.value) == v
    ensures forall s :: Label(s) == v ==> r == Some(s)
  {
    if v == "To Do" then Some(ToDo)
    else if v == "In Progress" then Some(InProgress)
    else if v == "Done" then Some(Done)
    else None
  }

  /** The column order of the board and of every status select. */
  const Statuses: seq<Status> := [ToDo, InProgress, Done]

  /** The values offered by a status select: one option per entry of
      `Statuses`, valued by its label. */
  function OptionValues(): (r: seq<string>)
    ensures |r| == |Statuses|
    ensures forall i :: 0 <= i < |r| ==> r[i] == Label(Statuses[i])
  {
    ["To Do", "In Progress", "Done"]
  }

  /** `Statuses` lists every status exactly once. */
  lemma StatusesEnumerate(s: Status)
    ensures s in Statuses
    ensures forall i, j :: 0 <= i < j < |Statuses| ==> Statuses[i] != Statuses[j]
  {
  }

  datatype Task = Task(id: string, title: string, description: string, status: Status)

  /** A task before the app has given it an id: what the add form emits. */
  datatype Draft = Draft(title: string, description: string, status: Status)

  /** The ids of a task list, in list order. */
  function Ids(ts: seq<Task>): (r: seq<string>)
    ensures |r| == |ts|
    ensures forall i :: 0 <= i < |ts| ==> r[i] == ts[i].id
  {
    if ts == [] then [] else [ts[0].id] + Ids(ts[1..])
  }

  /** No two entries of the list share an id. The app does not enforce
      this; it holds while every added id is fresh. */
  predicate UniqueIds(ts: seq<Task>) {
    forall i, j :: 0 <= i < j < |ts| ==> ts[i].id != ts[j].id
  }
}
