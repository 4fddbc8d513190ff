/** The two list operations the app applies to its task list: the
    id-matching `map` that replaces an updated task, and the id-matching
    `filter` that drops a deleted one. */
module Store {
  import opened Types

  /** `tasks.map(task => task.id === u.id ? u : task)`: every entry whose id is
      `u.id` becomes `u`, every other entry stays where and what it was. */
  function Replace(ts: seq<Task>, u: Task): (r: seq<Task>)
    ensures |r| == |ts|
    ensures forall i :: 0 <= i < |ts| && ts[i].id == u.id ==> r[i] == u
    ensures forall i :: 0 <= i < |ts| && ts[i].id != u.id ==> r[i] == ts[i]
  {
    if ts == [] then []
    else [if ts[0].id == u.id then u else ts[0]] + Replace(ts[1..], u)
  }

  /** Every entry after a replacement is the update or an entry from before
      under another id: no entry with the update's id survives. */
  lemma ReplaceMembers(ts: seq<Task>, u: Task)
    ensures forall x :: x in Replace(ts, u) ==> x == u || (x in ts && x.id != u.id)
  {
    var r := Replace(ts, u);
    forall x | x in r ensures x == u || (x in ts && x.id != u.id) {
      var i :| 0 <= i < |r| && r[i] == x;
    }
  }

  /** Replacing never changes the list of ids, so it keeps ids unique. */
  lemma ReplaceKeepsIds(ts: seq<Task>, u: Task)
    ensures Ids(Replace(ts, u)) == Ids(ts)
    ensures UniqueIds(ts) ==> UniqueIds(Replace(ts, u))
  {
    assert Ids(Replace(ts, u)) == Ids(ts);
  }

  /** An update whose id matches no entry leaves the list as it was. */
  lemma ReplaceNoMatch(ts: seq<Task>, u: Task)
    requires u.id !in Ids(ts)
    ensures Replace(ts, u) == ts
  {
    assert forall i :: 0 <= i < |ts| ==> Ids(ts)[i] == ts[i].id;
  }

  /** Applying the same update twice equals applying it once. */
  lemma ReplaceIdempotent(ts: seq<Task>, u: Task)
    ensures Replace(Replace(ts, u), u) == Replace(ts, u)
  {
  }

  /** With unique ids, replacing an entry and then putting the old entry back
      restores the list: the update touched that one entry and nothing else. */
  lemma ReplaceRestores(ts: seq<Task>, i: nat, u: Task)
    requires UniqueIds(ts)
    requires i < |ts| && ts[i].id == u.id
    ensures Replace(Replace(ts, u), ts[i]) == ts
  {
    var r := Replace(ts, u);
    var back := Replace(r, ts[i]);
    forall k | 0 <= k < |ts|
      ensures back[k] == ts[k]
    {
      if k != i {
        assert ts[k].id != u.id;
        assert r[k] == ts[k];
      }
    }
  }

  /** `tasks.filter(task => task.id !== id)`: exactly the entries whose id is
      not `id` survive. */
  function RemoveId(ts: seq<Task>, id: string): (r: seq<Task>)
    ensures forall t :: t in r <==> t in ts && t.id != id
    ensures |r| <= |ts|
  {
    if ts == [] then []
    else (if ts[0].id == id then [] else [ts[0]]) + RemoveId(ts[1..], id)
  }

  /** One entry survives per entry of another id: the list shrinks by the
      number of entries carrying `id`. */
  lemma {:induction false} RemoveIdCount(ts: seq<Task>, id: string)
    ensures |RemoveId(ts, id)| == |ts| - multiset(Ids(ts))[id]
    decreases |ts|
  {
    if ts != [] {
      RemoveIdCount(ts[1..], id);
      assert Ids(ts) == [ts[0].id] + Ids(ts[1..]);
    }
  }

  /** Removal works piecewise: the survivors of a concatenation are the
      survivors of each part, in the same order. */
  lemma {:induction false} RemoveIdSplits(a: seq<Task>, b: seq<Task>, id: string)
    ensures RemoveId(a + b, id) == RemoveId(a, id) + RemoveId(b, id)
    decreases |a|
  {
    if a != [] {
      var head := if a[0].id == id then [] else [a[0]];
      assert (a + b)[0] == a[0] && (a + b)[1..] == a[1..] + b;
      assert RemoveId(a + b, id) == head + RemoveId(a[1..] + b, id);
      RemoveIdSplits(a[1..], b, id);
      assert RemoveId(a, id) == head + RemoveId(a[1..], id);
    } else {
      assert a + b == b;
    }
  }

  /** Removing an id no entry carries leaves the list as it was. */
  lemma {:induction false} RemoveIdNoMatch(ts: seq<Task>, id: string)
    requires id !in Ids(ts)
    ensures RemoveId(ts, id) == ts
    decreases |ts|
  {
    if ts != [] {
      assert Ids(ts)[0] == ts[0].id;
      assert Ids(ts[1..]) == Ids(ts)[1..];
      RemoveIdNoMatch(ts[1..], id);
      assert [ts[0]] + ts[1..] == ts;
    }
  }

  /** Removal keeps ids unique. */
  lemma {:induction false} RemoveIdKeepsUnique(ts: seq<Task>, id: string)
    requires UniqueIds(ts)
    ensures UniqueIds(RemoveId(ts, id))
    decreases |ts|
  {
    if ts != [] {
      var rest := RemoveId(ts[1..], id);
      RemoveIdKeepsUnique(ts[1..], id);
      assert forall k :: 0 <= k < |rest| ==> rest[k] in ts[1..];
      assert forall k :: 0 <= k < |rest| ==> rest[k].id != ts[0].id;
    }
  }

  /** Putting a task with a fresh id in front keeps ids unique. */
  lemma PrependKeepsUnique(ts: seq<Task>, t: Task)
    requires UniqueIds(ts) && t.id !in Ids(ts)
    ensures UniqueIds([t] + ts)
  {
    var r := [t] + ts;
    forall i, j | 0 <= i < j < |r| ensures r[i].id != r[j].id {
      if i == 0 {
        assert r[j] == ts[j - 1] && Ids(ts)[j - 1] == ts[j - 1].id;
      } else {
        assert r[i] == ts[i - 1] && r[j] == ts[j - 1];
      }
    }
  }
}
