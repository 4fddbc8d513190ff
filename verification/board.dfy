/** The task list view: the store split into one column per status, in the
    fixed status order, each column headed by its task count. */
module Board {
  import opened Types

  /** `tasks.filter(task => task.status === s)`: the tasks of one column. */
  function Column(ts: seq<Task>, s: Status): (r: seq<Task>)
    ensures forall t :: t in r <==> t in ts && t.status == s
    ensures |r| <= |ts|
  {
    if ts == [] then []
    else (if ts[0].status == s then [ts[0]] else []) + Column(ts[1..], s)
  }

  /** One rendered column: its status, its tasks, and the count in its header. */
  datatype ColumnView = ColumnView(status: Status, tasks: seq<Task>, count: nat)

  /** `STATUSES.map(status => <TaskColumn tasks={filter}/>)`: one view per
      status, in `Statuses` order; each holds exactly the tasks of its status
      and shows their number. */
  function Columns(ts: seq<Task>): (r: seq<ColumnView>)
    ensures |r| == |Statuses|
    ensures forall i :: 0 <= i < |r| ==> r[i].status == Statuses[i]
    ensures forall i :: 0 <= i < |r| ==> r[i].count == |r[i].tasks|
    ensures forall i, t :: 0 <= i < |r| ==> (t in r[i].tasks <==> t in ts && t.status == r[i].status)
  {
    seq(|Statuses|, i requires 0 <= i < |Statuses| =>
      var col := Column(ts, Statuses[i]);
      ColumnView(Statuses[i], col, |col|))
  }

  /** Columns preserve store order: the column of a concatenation is the
      concatenation of the columns. */
  lemma {:induction false} ColumnSplits(a: seq<Task>, b: seq<Task>, s: Status)
    ensures Column(a + b, s) == Column(a, s) + Column(b, s)
    decreases |a|
  {
    if a != [] {
      var head := if a[0].status == s then [a[0]] else [];
      assert (a + b)[0] == a[0] && (a + b)[1..] == a[1..] + b;
      assert Column(a + b, s) == head + Column(a[1..] + b, s);
      ColumnSplits(a[1..], b, s);
      assert Column(a, s) == head + Column(a[1..], s);
    } else {
      assert a + b == b;
    }
  }

  /** A column holds each task of its status as many times as the store
      does, and no task of another status. */
  lemma {:induction false} ColumnMultiplicity(ts: seq<Task>, s: Status, x: Task)
    ensures multiset(Column(ts, s))[x] == if x.status == s then multiset(ts)[x] else 0
    decreases |ts|
  {
    if ts != [] {
      ColumnMultiplicity(ts[1..], s, x);
      assert ts == [ts[0]] + ts[1..];
    }
  }

  /** The three columns partition the store: together they hold every task
      exactly as often as the store does. */
  lemma ColumnsPartition(ts: seq<Task>)
    ensures multiset(Column(ts, ToDo)) + multiset(Column(ts, InProgress)) + multiset(Column(ts, Done))
            == multiset(ts)
  {
    forall x: Task
      ensures (multiset(Column(ts, ToDo)) + multiset(Column(ts, InProgress)) + multiset(Column(ts, Done)))[x]
              == multiset(ts)[x]
    {
      ColumnMultiplicity(ts, ToDo, x);
      ColumnMultiplicity(ts, InProgress, x);
      ColumnMultiplicity(ts, Done, x);
    }
  }

  /** The column lengths add up to the length of the store. */
  lemma ColumnLengthsSum(ts: seq<Task>)
    ensures |Column(ts, ToDo)| + |Column(ts, InProgress)| + |Column(ts, Done)| == |ts|
  {
    ColumnsPartition(ts);
    assert |multiset(ts)| == |ts|;
  }

  /** Every task of the store is in exactly one column, the one of its
      status, and the header counts add up to the number of tasks. */
  lemma ExactlyOneColumn(ts: seq<Task>, t: Task)
    requires t in ts
    ensures forall i :: 0 <= i < |Columns(ts)| ==> (t in Columns(ts)[i].tasks <==> Statuses[i] == t.status)
    ensures exists i :: 0 <= i < |Columns(ts)| && t in Columns(ts)[i].tasks
    ensures Columns(ts)[0].count + Columns(ts)[1].count + Columns(ts)[2].count == |ts|
  {
    var cs := Columns(ts);
    ColumnLengthsSum(ts);
    StatusesEnumerate(t.status);
    var k :| 0 <= k < |Statuses| && Statuses[k] == t.status;
    assert t in cs[k].tasks;
  }
}
