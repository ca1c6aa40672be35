/** The first version's task screen for one list: the fetch of the list's
    tasks ordered by due date and time, the status picker's filter, and
    swipe-to-delete. */
module TaskView {
  import opened Wrappers
  import opened Seqs
  import opened Sorting
  import opened Calendar
  import opened Store

  datatype Status = InProgress | Completed | All

  function RawValue(s: Status): (r: string)
    ensures r == "In Progress" <==> s == InProgress
    ensures r == "Completed" <==> s == Completed
    ensures r == "All" <==> s == All
  {
    match s
    case InProgress => "In Progress"
    case Completed => "Completed"
    case All => "All"
  }

  const DefaultStatus: Status := InProgress

  /** The key an ascending sort descriptor on an optional date compares:
      a missing date first, then by instant. */
  function DateKey(d: Option<Moment>): Option<int> {
    if d.None? then None else Some(Instant(d.value))
  }

  predicate KeyLe(a: Option<int>, b: Option<int>) {
    a.None? || (b.Some? && a.value <= b.value)
  }

  /** The two sort descriptors: `dueDate` ascending, ties broken by
      `dueTime` ascending. */
  predicate DueLe(x: Task, y: Task) {
    var dx, dy := DateKey(x.dueDate), DateKey(y.dueDate);
    (KeyLe(dx, dy) && !KeyLe(dy, dx)) || (KeyLe(dx, dy) && KeyLe(dy, dx) && KeyLe(DateKey(x.dueTime), DateKey(y.dueTime)))
  }

  lemma DueLeIsTotalPreorder()
    ensures TotalPreorder(DueLe)
  {
  }

  /** `fetchedTasks`: the tasks whose list is the selected one, ordered
      by the two sort descriptors. */
  function FetchTasks(ts: seq<Task>, listId: ObjectId): (r: seq<Task>)
    ensures multiset(r) == multiset(TasksOf(ts, listId))
    ensures forall t :: t in r <==> t in ts && InList(listId, t)
    ensures SortedBy(r, DueLe)
  {
    DueLeIsTotalPreorder();
    SortBySorted(TasksOf(ts, listId), DueLe);
    var r := SortBy(TasksOf(ts, listId), DueLe);
    assert forall t :: t in r <==> t in multiset(TasksOf(ts, listId));
    r
  }

  /** The `ForEach` filter: `.all` passes every task, another status only
      the tasks whose status string is its raw value. */
  predicate Shown(selectedStatus: Status, t: Task) {
    selectedStatus == All || t.status == Some(RawValue(selectedStatus))
  }

  function Visible(fetched: seq<Task>, selectedStatus: Status): (r: seq<Task>)
    ensures forall t :: t in r <==> t in fetched && Shown(selectedStatus, t)
    ensures IsSubsequence(r, fetched)
  {
    FilterIsSubsequence(fetched, (t: Task) => Shown(selectedStatus, t));
    Filter(fetched, (t: Task) => Shown(selectedStatus, t))
  }

  /** `.all` shows every fetched task, in fetch order. */
  lemma {:induction false} AllShowsEveryTask(fetched: seq<Task>)
    ensures Visible(fetched, All) == fetched
  {
    if fetched != [] {
      AllShowsEveryTask(fetched[1..]);
      assert fetched == [fetched[0]] + fetched[1..];
    }
  }

  /** A status other than the two raw values, or none, is never shown
      under "In Progress" or "Completed". */
  lemma OddStatusShownOnlyUnderAll(t: Task)
    requires t.status != Some("In Progress") && t.status != Some("Completed")
    ensures !Shown(InProgress, t) && !Shown(Completed, t) && Shown(All, t)
  {
  }

  /** The identities of the tasks at `offsets` of `rows`. */
  function PickedTasks(rows: seq<Task>, offsets: seq<nat>): set<ObjectId>
  {
    set j | 0 <= j < |offsets| && offsets[j] < |rows| :: rows[offsets[j]].id
  }

  lemma PickedTasksStep(rows: seq<Task>, offsets: seq<nat>, j: nat)
    requires forall m | 0 <= m < |offsets| :: offsets[m] < |rows|
    requires j <= |offsets|
    ensures PickedTasks(rows, offsets[..0]) == {}
    ensures j < |offsets| ==> PickedTasks(rows, offsets[..j + 1]) == PickedTasks(rows, offsets[..j]) + {rows[offsets[j]].id}
  {
    if j < |offsets| {
      var a, b := offsets[..j + 1], offsets[..j];
      assert forall m | 0 <= m < j + 1 :: a[m] == offsets[m];
      assert forall m | 0 <= m < j :: b[m] == offsets[m];
      assert rows[a[j]].id in PickedTasks(rows, a);
    }
  }

  function TasksWithoutIds(ts: seq<Task>, ids: set<ObjectId>): (r: seq<Task>)
    ensures forall t :: t in r <==> t in ts && t.id !in ids
  {
    Filter(ts, (t: Task) => t.id !in ids)
  }

  lemma {:induction false} TasksWithoutIdsStep(ts: seq<Task>, ids: set<ObjectId>, id: ObjectId)
    ensures TasksWithout(TasksWithoutIds(ts, ids), id) == TasksWithoutIds(ts, ids + {id})
  {
    if ts != [] {
      TasksWithoutIdsStep(ts[1..], ids, id);
      var rest := TasksWithoutIds(ts[1..], ids);
      if ts[0].id !in ids {
        var r := [ts[0]] + rest;
        assert TasksWithoutIds(ts, ids) == r;
        assert r[0] == ts[0] && r[1..] == rest;
      } else {
        assert TasksWithoutIds(ts, ids) == rest;
      }
    }
  }

  lemma {:induction false} TasksWithoutNoIds(ts: seq<Task>)
    ensures TasksWithoutIds(ts, {}) == ts
  {
    if ts != [] {
      TasksWithoutNoIds(ts[1..]);
      assert ts == [ts[0]] + ts[1..];
    }
  }

  /** Deletes the task at each offset of `rows` from the store. The
      nullify rule leaves every list in place. */
  method DeleteTaskRows(store: Store, rows: seq<Task>, offsets: seq<nat>)
    requires store.Valid()
    requires forall j | 0 <= j < |offsets| :: offsets[j] < |rows|
    modifies store
    ensures store.Valid()
    ensures store.lists == old(store.lists)
    ensures store.tasks == TasksWithoutIds(old(store.tasks), PickedTasks(rows, offsets))
  {
    ghost var tasks0 := store.tasks;
    TasksWithoutNoIds(tasks0);
    PickedTasksStep(rows, offsets, 0);
    for j := 0 to |offsets|
      invariant store.Valid()
      invariant store.lists == old(store.lists)
      invariant store.tasks == TasksWithoutIds(tasks0, PickedTasks(rows, offsets[..j]))
    {
      var task := rows[offsets[j]];
      DeleteRowStep(tasks0, rows, offsets, j);
      store.DeleteTask(task.id);
    }
    assert offsets[..|offsets|] == offsets;
  }

  /** Deleting the task of one more offset leaves the tasks without the
      identities picked so far and that one. */
  lemma DeleteRowStep(tasks0: seq<Task>, rows: seq<Task>, offsets: seq<nat>, j: nat)
    requires forall m | 0 <= m < |offsets| :: offsets[m] < |rows|
    requires j < |offsets|
    ensures TasksWithout(TasksWithoutIds(tasks0, PickedTasks(rows, offsets[..j])), rows[offsets[j]].id)
            == TasksWithoutIds(tasks0, PickedTasks(rows, offsets[..j + 1]))
  {
    TasksWithoutIdsStep(tasks0, PickedTasks(rows, offsets[..j]), rows[offsets[j]].id);
    PickedTasksStep(rows, offsets, j);
  }

  /** `deleteTask(at:)` as written: the offsets come from the filtered
      rows but index `fetchedTasks`, the unfiltered fetch. */
  method DeleteTask(store: Store, listId: ObjectId, offsets: seq<nat>)
    requires store.Valid()
    requires forall j | 0 <= j < |offsets| :: offsets[j] < |FetchTasks(store.tasks, listId)|
    modifies store
    ensures store.Valid()
    ensures store.lists == old(store.lists)
    ensures store.tasks == TasksWithoutIds(old(store.tasks), PickedTasks(FetchTasks(old(store.tasks), listId), offsets))
  {
    var fetchedTasks := FetchTasks(store.tasks, listId);
    DeleteTaskRows(store, fetchedTasks, offsets);
  }

  /** The delete the swipe means: the offsets index the rows shown under
      the selected status. */
  method DeleteVisibleTask(store: Store, listId: ObjectId, selectedStatus: Status, offsets: seq<nat>)
    requires store.Valid()
    requires forall j | 0 <= j < |offsets| :: offsets[j] < |Visible(FetchTasks(store.tasks, listId), selectedStatus)|
    modifies store
    ensures store.Valid()
    ensures store.lists == old(store.lists)
    ensures store.tasks == TasksWithoutIds(old(store.tasks),
                             PickedTasks(Visible(FetchTasks(old(store.tasks), listId), selectedStatus), offsets))
  {
    var rows := Visible(FetchTasks(store.tasks, listId), selectedStatus);
    DeleteTaskRows(store, rows, offsets);
  }

  /** With the corrected delete, every swiped row's task is gone and every
      task on no swiped row is kept; only shown tasks can go. */
  lemma VisibleDeleteRemovesOnlySwipedRows(ts: seq<Task>, listId: ObjectId, selectedStatus: Status, offsets: seq<nat>)
    requires forall j | 0 <= j < |offsets| :: offsets[j] < |Visible(FetchTasks(ts, listId), selectedStatus)|
    ensures forall j | 0 <= j < |offsets| ::
              Visible(FetchTasks(ts, listId), selectedStatus)[offsets[j]]
                !in TasksWithoutIds(ts, PickedTasks(Visible(FetchTasks(ts, listId), selectedStatus), offsets))
    ensures forall t | t in ts && t !in TasksWithoutIds(ts, PickedTasks(Visible(FetchTasks(ts, listId), selectedStatus), offsets)) ::
              exists u | u in ts :: u.id == t.id && InList(listId, u) && Shown(selectedStatus, u)
  {
    var rows := Visible(FetchTasks(ts, listId), selectedStatus);
    forall t | t in ts && t !in TasksWithoutIds(ts, PickedTasks(rows, offsets))
      ensures exists u | u in ts :: u.id == t.id && InList(listId, u) && Shown(selectedStatus, u)
    {
      var j :| 0 <= j < |offsets| && rows[offsets[j]].id == t.id;
      var u := rows[offsets[j]];
      assert u in rows;
    }
  }

  /** The earlier, completed task of the example list 7. */
  const EarlierCompleted := Task(1, Some("A"), None, Some(Moment(1, 9, 0, 0)), None, None, Some("Completed"), None, None, Some(7))

  /** The later, in-progress task of the example list 7. */
  const LaterInProgress := Task(2, Some("B"), None, Some(Moment(2, 9, 0, 0)), None, None, Some("In Progress"), None, None, Some(7))

  lemma ExampleFetch()
    ensures FetchTasks([EarlierCompleted, LaterInProgress], 7) == [EarlierCompleted, LaterInProgress]
  {
    var a, b := EarlierCompleted, LaterInProgress;
    assert [a, b][1..] == [b];
    assert TasksOf([b], 7) == [b];
    assert TasksOf([a, b], 7) == [a, b];
    assert DueLe(a, b);
    assert SortBy([b], DueLe) == [b];
    assert SortBy([a, b], DueLe) == Insert(a, [b], DueLe);
  }

  lemma ExampleVisible()
    ensures Visible([EarlierCompleted, LaterInProgress], InProgress) == [LaterInProgress]
  {
    var a, b := EarlierCompleted, LaterInProgress;
    assert [a, b][1..] == [b];
    assert [b][1..] == [];
    assert Filter([b], (t: Task) => Shown(InProgress, t)) == [b];
    assert Filter([a, b], (t: Task) => Shown(InProgress, t)) == [b];
  }

  /** One step of the filter behind `TasksWithoutIds`. */
  lemma TasksWithoutIdsCons(t: Task, ts: seq<Task>, ids: set<ObjectId>)
    ensures TasksWithoutIds([t] + ts, ids) == (if t.id !in ids then [t] else []) + TasksWithoutIds(ts, ids)
  {
    assert ([t] + ts)[1..] == ts;
  }

  lemma ExampleDeleteFirstFetched()
    ensures TasksWithoutIds([EarlierCompleted, LaterInProgress],
                            PickedTasks([EarlierCompleted, LaterInProgress], [0])) == [LaterInProgress]
  {
    var a, b := EarlierCompleted, LaterInProgress;
    assert PickedTasks([a, b], [0]) == {1} by {
      assert [a, b][[0][0]].id == 1;
      assert forall x :: x in PickedTasks([a, b], [0]) <==> x == 1;
    }
    TasksWithoutIdsCons(a, [b], {1});
    TasksWithoutIdsCons(b, [], {1});
    assert [a] + [b] == [a, b] && [b] + [] == [b];
  }

  lemma ExampleDeleteFirstVisible()
    ensures TasksWithoutIds([EarlierCompleted, LaterInProgress], PickedTasks([LaterInProgress], [0])) == [EarlierCompleted]
  {
    var a, b := EarlierCompleted, LaterInProgress;
    assert PickedTasks([b], [0]) == {2} by {
      assert [b][[0][0]].id == 2;
      assert forall x :: x in PickedTasks([b], [0]) <==> x == 2;
    }
    TasksWithoutIdsCons(a, [b], {2});
    TasksWithoutIdsCons(b, [], {2});
    assert [a] + [b] == [a, b] && [b] + [] == [b];
  }

  /** Under "In Progress", a list whose earliest task is completed and
      whose next is in progress shows one row, the in-progress task.
      Swiping that row away deletes the completed task instead and keeps
      the swiped one; the corrected delete removes the swiped task. */
  lemma DeleteTaskHitsHiddenTask()
    ensures var ts := [EarlierCompleted, LaterInProgress];
            && FetchTasks(ts, 7) == ts
            && Visible(FetchTasks(ts, 7), InProgress) == [LaterInProgress]
            && TasksWithoutIds(ts, PickedTasks(FetchTasks(ts, 7), [0])) == [LaterInProgress]
            && TasksWithoutIds(ts, PickedTasks(Visible(FetchTasks(ts, 7), InProgress), [0])) == [EarlierCompleted]
  {
    ExampleFetch();
    ExampleVisible();
    ExampleDeleteFirstFetched();
    ExampleDeleteFirstVisible();
  }
}
