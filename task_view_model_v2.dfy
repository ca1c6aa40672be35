/** The second version's task store: an observable array of tasks seeded
    with three examples and appended to by the add screen. */
module TaskViewModelV2 {
  import opened TaskViewV2

  const Day := 86400

  predicate TaskIdsDistinct(ts: seq<TaskModel>) {
    forall i, j | 0 <= i < j < |ts| :: ts[i].id != ts[j].id
  }

  predicate FreshTaskId(ts: seq<TaskModel>, id: Uuid) {
    forall k | 0 <= k < |ts| :: ts[k].id != id
  }

  /** The three seed tasks, built at instant `now`: due one, two and three
      days ahead, each with `time` equal to `now`. */
  function Seed(now: int, a: Uuid, b: Uuid, c: Uuid): seq<TaskModel> {
    [ TaskModel(a, "Iphone assignment 1", InProgress, "Description for Iphone assignment 1", now + Day, now),
      TaskModel(b, "Algo quiz 6", Completed, "Description for Algo quiz 6", now + 2 * Day, now),
      TaskModel(c, "Algo assigment 1", InProgress, "Description for Algo assigment 1", now + 3 * Day, now) ]
  }

  /** The seed's statuses, and the rows the default filter shows for it:
      the first and the third. */
  lemma SeedShownByDefault(now: int, a: Uuid, b: Uuid, c: Uuid)
    ensures |Seed(now, a, b, c)| == 3
    ensures Seed(now, a, b, c)[0].status == InProgress && Seed(now, a, b, c)[1].status == Completed
         && Seed(now, a, b, c)[2].status == InProgress
    ensures Indices(Seed(now, a, b, c), DefaultSelectedStatus, "") == [0, 2]
  {
    var s := Seed(now, a, b, c);
    assert IndicesUpTo(s, DefaultSelectedStatus, "", 1) == [0];
    assert IndicesUpTo(s, DefaultSelectedStatus, "", 2) == [0];
  }

  /** The task `addTask(name:dueDate:description:)` builds: in progress,
      with its time set to its due date. */
  function NewTask(id: Uuid, name: string, dueDate: int, description: string): (t: TaskModel)
    ensures t.status == InProgress && t.time == t.dueDate == dueDate
    ensures t.name == name && t.description == description && t.id == id
  {
    TaskModel(id, name, InProgress, description, dueDate, dueDate)
  }

  /** A newly added task is among the rows the default filter shows. */
  lemma NewTaskShownByDefault(ts: seq<TaskModel>, t: TaskModel)
    requires t.status == InProgress
    ensures |ts| in Indices(ts + [t], DefaultSelectedStatus, "")
  {
    assert (ts + [t])[|ts|] == t;
  }

  lemma AppendFreshKeepsTaskIdsDistinct(ts: seq<TaskModel>, t: TaskModel)
    requires TaskIdsDistinct(ts) && FreshTaskId(ts, t.id)
    ensures TaskIdsDistinct(ts + [t])
  {
    var r := ts + [t];
    forall i, j | 0 <= i < j < |r| ensures r[i].id != r[j].id {
      assert r[i] == ts[i];
      if j < |ts| {
        assert r[j] == ts[j];
      }
    }
  }

  class TaskViewModel {
    var tasks: seq<TaskModel>

    predicate Valid()
      reads this
    {
      TaskIdsDistinct(tasks)
    }

    /** The seed, built at `now` with three fresh ids. */
    constructor(now: int, a: Uuid, b: Uuid, c: Uuid)
      requires a != b && a != c && b != c
      ensures tasks == Seed(now, a, b, c)
      ensures Valid()
    {
      tasks := Seed(now, a, b, c);
    }

    /** `addTask`: one new task at the end, all earlier tasks unchanged;
        `newId` stands for the fresh `UUID()`. */
    method AddTask(name: string, dueDate: int, description: string, newId: Uuid)
      requires FreshTaskId(tasks, newId)
      modifies this
      ensures tasks == old(tasks) + [NewTask(newId, name, dueDate, description)]
      ensures old(Valid()) ==> Valid()
    {
      var newTask := NewTask(newId, name, dueDate, description);
      if TaskIdsDistinct(tasks) {
        AppendFreshKeepsTaskIdsDistinct(tasks, newTask);
      }
      tasks := tasks + [newTask];
    }
  }
}
