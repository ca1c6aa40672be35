/** The first version's home screen: every list ordered by name, the two
    header counts, and swipe-to-delete of lists. */
module ListView {
  import opened Wrappers
  import opened Seqs
  import opened Sorting
  import opened Store

  /** `NSSortDescriptor(key: "name", ascending: true)` on an optional
      string: a missing name sorts first, names compare by character. */
  predicate OptStringLe(a: Option<string>, b: Option<string>) {
    a.None? || (b.Some? && StringLe(a.value, b.value))
  }

  predicate NameLe(a: TaskList, b: TaskList) {
    OptStringLe(a.name, b.name)
  }

  lemma NameLeIsTotalPreorder()
    ensures TotalPreorder(NameLe)
  {
    forall x: TaskList, y: TaskList ensures NameLe(x, y) || NameLe(y, x) {
      if x.name.Some? && y.name.Some? {
        StringLeTotal(x.name.value, y.name.value);
      }
    }
    forall x: TaskList, y: TaskList, z: TaskList | NameLe(x, y) && NameLe(y, z) ensures NameLe(x, z) {
      if x.name.Some? {
        StringLeTransitive(x.name.value, y.name.value, z.name.value);
      }
    }
  }

  /** `allLists`: the store's lists in ascending name order. The search
      field's text is never consulted, so this is also what is shown. */
  function AllLists(ls: seq<TaskList>): (r: seq<TaskList>)
    ensures multiset(r) == multiset(ls) && |r| == |ls|
    ensures SortedBy(r, NameLe)
  {
    NameLeIsTotalPreorder();
    SortBySorted(ls, NameLe);
    assert |multiset(SortBy(ls, NameLe))| == |multiset(ls)|;
    SortBy(ls, NameLe)
  }

  predicate HasStatus(status: string, t: Task) {
    t.status == Some(status)
  }

  /** A fetch with the predicate `status == %@`. */
  function WithStatus(ts: seq<Task>, status: string): seq<Task> {
    Filter(ts, (t: Task) => HasStatus(status, t))
  }

  predicate NeitherStatus(t: Task) {
    !HasStatus("In Progress", t) && !HasStatus("Completed", t)
  }

  /** The two header counts and the tasks with any other status (or none)
      partition the store's tasks. */
  lemma {:induction false} HeaderCountsPartition(ts: seq<Task>)
    ensures |WithStatus(ts, "In Progress")| + |WithStatus(ts, "Completed")|
            + |Filter(ts, NeitherStatus)| == |ts|
  {
    if ts != [] {
      HeaderCountsPartition(ts[1..]);
    }
  }

  /** A task whose status is neither string changes neither count. */
  lemma OtherStatusIsNotCounted(ts: seq<Task>, t: Task)
    requires NeitherStatus(t)
    ensures |WithStatus(ts + [t], "In Progress")| == |WithStatus(ts, "In Progress")|
    ensures |WithStatus(ts + [t], "Completed")| == |WithStatus(ts, "Completed")|
  {
    FilterAppend(ts, [t], (u: Task) => HasStatus("In Progress", u));
    FilterAppend(ts, [t], (u: Task) => HasStatus("Completed", u));
  }

  /** The identities of the lists at `offsets` of the shown rows. */
  function Picked(rows: seq<TaskList>, offsets: seq<nat>): set<ObjectId>
  {
    set j | 0 <= j < |offsets| && offsets[j] < |rows| :: rows[offsets[j]].id
  }

  /** Taking one more offset picks one more identity. */
  lemma PickedStep(rows: seq<TaskList>, offsets: seq<nat>, j: nat)
    requires forall m | 0 <= m < |offsets| :: offsets[m] < |rows|
    requires j <= |offsets|
    ensures Picked(rows, offsets[..0]) == {}
    ensures j < |offsets| ==> Picked(rows, offsets[..j + 1]) == Picked(rows, offsets[..j]) + {rows[offsets[j]].id}
  {
    if j < |offsets| {
      var a, b := offsets[..j + 1], offsets[..j];
      assert forall m | 0 <= m < j + 1 :: a[m] == offsets[m];
      assert forall m | 0 <= m < j :: b[m] == offsets[m];
      assert rows[a[j]].id in Picked(rows, a);
    }
  }

  function ListsWithoutIds(ls: seq<TaskList>, ids: set<ObjectId>): (r: seq<TaskList>)
    ensures forall l :: l in r <==> l in ls && l.id !in ids
  {
    Filter(ls, (l: TaskList) => l.id !in ids)
  }

  predicate InAnyList(ids: set<ObjectId>, t: Task) {
    t.taskList.Some? && t.taskList.value in ids
  }

  function TasksWithoutLists(ts: seq<Task>, ids: set<ObjectId>): (r: seq<Task>)
    ensures forall t :: t in r <==> t in ts && !InAnyList(ids, t)
  {
    Filter(ts, (t: Task) => !InAnyList(ids, t))
  }

  lemma {:induction false} ListsWithoutStep(ls: seq<TaskList>, ids: set<ObjectId>, id: ObjectId)
    ensures ListsWithout(ListsWithoutIds(ls, ids), id) == ListsWithoutIds(ls, ids + {id})
  {
    if ls != [] {
      ListsWithoutStep(ls[1..], ids, id);
      var rest := ListsWithoutIds(ls[1..], ids);
      if ls[0].id !in ids {
        var r := [ls[0]] + rest;
        assert ListsWithoutIds(ls, ids) == r;
        assert r[0] == ls[0] && r[1..] == rest;
      } else {
        assert ListsWithoutIds(ls, ids) == rest;
      }
    }
  }

  lemma {:induction false} TasksWithoutStep(ts: seq<Task>, ids: set<ObjectId>, id: ObjectId)
    ensures TasksWithoutList(TasksWithoutLists(ts, ids), id) == TasksWithoutLists(ts, ids + {id})
  {
    if ts != [] {
      TasksWithoutStep(ts[1..], ids, id);
      var rest := TasksWithoutLists(ts[1..], ids);
      if !InAnyList(ids, ts[0]) {
        var r := [ts[0]] + rest;
        assert TasksWithoutLists(ts, ids) == r;
        assert r[0] == ts[0] && r[1..] == rest;
      } else {
        assert TasksWithoutLists(ts, ids) == rest;
      }
    }
  }

  lemma {:induction false} ListsWithoutNothing(ls: seq<TaskList>)
    ensures ListsWithoutIds(ls, {}) == ls
  {
    if ls != [] {
      ListsWithoutNothing(ls[1..]);
      assert ls == [ls[0]] + ls[1..];
    }
  }

  lemma {:induction false} TasksWithoutNothing(ts: seq<Task>)
    ensures TasksWithoutLists(ts, {}) == ts
  {
    if ts != [] {
      TasksWithoutNothing(ts[1..]);
      assert ts == [ts[0]] + ts[1..];
    }
  }

  /** `deleteList(at:)`: deletes, from the context, the list at each offset
      of the name-ordered rows read before the loop; the cascade rule takes
      their tasks with them. */
  method DeleteLists(store: Store, offsets: seq<nat>)
    requires store.Valid()
    requires forall j | 0 <= j < |offsets| :: offsets[j] < |store.lists|
    modifies store
    ensures store.Valid()
    ensures store.lists == ListsWithoutIds(old(store.lists), Picked(AllLists(old(store.lists)), offsets))
    ensures store.tasks == TasksWithoutLists(old(store.tasks), Picked(AllLists(old(store.lists)), offsets))
  {
    var allLists := AllLists(store.lists);
    DeleteRows(store, allLists, offsets);
  }

  /** The loop of `deleteList(at:)` over a snapshot `rows` of the lists. */
  method DeleteRows(store: Store, rows: seq<TaskList>, offsets: seq<nat>)
    requires store.Valid()
    requires forall j | 0 <= j < |offsets| :: offsets[j] < |rows|
    modifies store
    ensures store.Valid()
    ensures store.lists == ListsWithoutIds(old(store.lists), Picked(rows, offsets))
    ensures store.tasks == TasksWithoutLists(old(store.tasks), Picked(rows, offsets))
  {
    ghost var lists0, tasks0 := store.lists, store.tasks;
    ghost var picked: set<ObjectId> := {};
    ListsWithoutNothing(lists0);
    TasksWithoutNothing(tasks0);
    PickedStep(rows, offsets, 0);
    for j := 0 to |offsets|
      invariant store.Valid()
      invariant picked == Picked(rows, offsets[..j])
      invariant store.lists == ListsWithoutIds(lists0, picked)
      invariant store.tasks == TasksWithoutLists(tasks0, picked)
    {
      var list := rows[offsets[j]];
      DeleteRowStep(lists0, tasks0, picked, list.id);
      PickedStep(rows, offsets, j);
      store.DeleteList(list.id);
      picked := picked + {list.id};
    }
    assert offsets[..|offsets|] == offsets;
  }

  /** Deleting one more list leaves the lists, and the tasks, without
      those deleted so far and that one. */
  lemma DeleteRowStep(lists0: seq<TaskList>, tasks0: seq<Task>, picked: set<ObjectId>, id: ObjectId)
    ensures ListsWithout(ListsWithoutIds(lists0, picked), id) == ListsWithoutIds(lists0, picked + {id})
    ensures TasksWithoutList(TasksWithoutLists(tasks0, picked), id) == TasksWithoutLists(tasks0, picked + {id})
  {
    ListsWithoutStep(lists0, picked, id);
    TasksWithoutStep(tasks0, picked, id);
  }

  /** After the delete, every list of a swiped row is gone along with its
      tasks, and every other list and task is still there. */
  lemma DeleteRemovesExactlyThePicked(ls: seq<TaskList>, ts: seq<Task>, offsets: seq<nat>)
    requires forall j | 0 <= j < |offsets| :: offsets[j] < |ls|
    ensures forall j | 0 <= j < |offsets| ::
              AllLists(ls)[offsets[j]] !in ListsWithoutIds(ls, Picked(AllLists(ls), offsets))
    ensures forall l | l in ls && (forall j | 0 <= j < |offsets| :: AllLists(ls)[offsets[j]].id != l.id) ::
              l in ListsWithoutIds(ls, Picked(AllLists(ls), offsets))
    ensures forall t | t in ts && t.taskList.Some? && (forall j | 0 <= j < |offsets| :: AllLists(ls)[offsets[j]].id != t.taskList.value) ::
              t in TasksWithoutLists(ts, Picked(AllLists(ls), offsets))
    ensures forall t | t in TasksWithoutLists(ts, Picked(AllLists(ls), offsets)) ::
              forall j | 0 <= j < |offsets| :: !InList(AllLists(ls)[offsets[j]].id, t)
  {
  }
}
